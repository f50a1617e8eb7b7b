/** The rules of the Categories module's Ajax controller: what a mode asks
    for, the defaults a saved category gets, the edit dialog's set-up, the
    resequencing of the category tree, the leaf/non-leaf split of the ids
    sent back to the page, the status switch of registry entries and the
    path-rebuild rule after a save. The entity manager is a pair of
    in-memory maps; the category utilities whose code is not part of this
    model are inputs. */
module CategoriesAjax {
  import opened Php
  import opened Framework

  /** A category, or registry entry, as the controller sees it: named fields. */
  type Entity = map<string, Value>

  // ---------------------------------------------------------------------
  // Modes

  /** `$mode == 'edit' ? ACCESS_EDIT : ACCESS_ADD`. */
  function AccessLevelFor(mode: Value): (level: AccessLevel)
    ensures level == Edit <==> LooseEqStr(mode, "edit")
    ensures level == Edit || level == Add
  {
    if LooseEqStr(mode, "edit") then Edit else Add
  }

  /** The `action` that `saveAction` reports. */
  function SaveActionLabel(mode: Value): (tag: string)
    ensures tag == "edit" <==> LooseEqStr(mode, "edit")
    ensures tag == "edit" || tag == "add"
  {
    if LooseEqStr(mode, "edit") then "edit" else "add"
  }

  /** The `action` that `editAction` reports. */
  function EditActionLabel(mode: Value): (tag: string)
    ensures tag == "add" <==> LooseEqStr(mode, "new")
    ensures tag == "edit" || tag == "add"
  {
    if LooseEqStr(mode, "new") then "add" else "edit"
  }

  /** For a posted mode string, only `edit` asks for the edit level. */
  lemma ModeLevel(mode: string)
    ensures AccessLevelFor(Str(mode)) == (if mode == "edit" then Edit else Add)
  {
    LooseEqWordLiteral("edit");
  }

  /** The two handlers agree on the label exactly for the modes `new` and
      `edit`; any other mode is an `add` to one and an `edit` to the other. */
  lemma LabelsAgree(mode: string)
    ensures SaveActionLabel(Str(mode)) == EditActionLabel(Str(mode)) <==> mode == "new" || mode == "edit"
    ensures mode != "new" && mode != "edit" ==>
              SaveActionLabel(Str(mode)) == "add" && EditActionLabel(Str(mode)) == "edit"
  {
    LooseEqWordLiteral("edit");
    LooseEqWordLiteral("new");
  }

  // ---------------------------------------------------------------------
  // editAction

  /** What the edit dialog is rendered with. */
  datatype EditView = EditView(mode: Value, category: Entity, attributes: Value, action: string)

  /** The dialog, or the dialog flagged with the validation errors of a
      previous submission (a bad-data response that still carries it). */
  datatype EditResponse = Dialog(view: EditView) | DialogWithErrors(view: EditView, errors: Value)

  /** A handler argument when it is set, else the posted value, else the
      default. */
  function ArgOrPost(args: map<string, Value>, post: map<string, Value>, key: string, default: Value): (v: Value)
    ensures Isset(args, key) ==> v == args[key]
    ensures !Isset(args, key) && key in post ==> v == post[key]
    ensures !Isset(args, key) && key !in post ==> v == default
  {
    if Isset(args, key) then args[key] else Get(post, key, default)
  }

  /** `editAction`: the mode (default `new`) decides the permission level; in
      edit mode a missing `cid` is bad data and an unknown one is not found;
      any other mode starts a new category under `parent` (default 1). */
  function EditCategory(args: map<string, Value>, post: map<string, Value>, permitted: AccessLevel -> bool,
                        lookup: Value -> Option<Entity>, validationErrors: Value): (r: Result<EditResponse>)
    ensures var mode := ArgOrPost(args, post, "mode", Str("new"));
            !permitted(AccessLevelFor(mode)) ==> r == Err(AccessDenied)
    ensures var mode := ArgOrPost(args, post, "mode", Str("new"));
            var cid := ArgOrPost(args, post, "cid", Int(0));
            permitted(AccessLevelFor(mode)) && LooseEqStr(mode, "edit") && !Truthy(cid) ==> r == Err(BadData)
    ensures var mode := ArgOrPost(args, post, "mode", Str("new"));
            var cid := ArgOrPost(args, post, "cid", Int(0));
            permitted(AccessLevelFor(mode)) && LooseEqStr(mode, "edit") && Truthy(cid) ==>
              (r == Err(NotFound) <==> lookup(cid).None? || lookup(cid) == Some(map[])) &&
              (r.Err? ==> r == Err(NotFound))
    ensures var mode := ArgOrPost(args, post, "mode", Str("new"));
            permitted(AccessLevelFor(mode)) && !LooseEqStr(mode, "edit") ==> r.Ok?
    ensures r.Err? ==> r.failure in {AccessDenied, BadData, NotFound}
    ensures r.Ok? ==>
              var mode := ArgOrPost(args, post, "mode", Str("new"));
              var v := r.value.view;
              && v.mode == mode
              && v.action == EditActionLabel(mode)
              && (LooseEqStr(mode, "edit") ==> Some(v.category) == lookup(ArgOrPost(args, post, "cid", Int(0))))
              && (!LooseEqStr(mode, "edit") ==>
                    v.category == map["sort_value" := Str("0"), "parent_id" := ArgOrPost(args, post, "parent", Int(1))])
              && (r.value.DialogWithErrors? <==> Truthy(validationErrors))
  {
    var mode := ArgOrPost(args, post, "mode", Str("new"));
    if !permitted(AccessLevelFor(mode)) then Err(AccessDenied)
    else
      var cid := ArgOrPost(args, post, "cid", Int(0));
      var parent := ArgOrPost(args, post, "parent", Int(1));
      var found :=
        if LooseEqStr(mode, "edit") then
          if !Truthy(cid) then Err(BadData)
          else match lookup(cid)
            case None => Err(NotFound)
            case Some(c) => if c == map[] then Err(NotFound) else Ok(c)
        else Ok(map["sort_value" := Str("0"), "parent_id" := parent]);
      match found
      case Err(f) => Err(f)
      case Ok(category) =>
        var attributes := if Isset(category, "__ATTRIBUTES__") then category["__ATTRIBUTES__"] else List([]);
        var view := EditView(mode, category, attributes, EditActionLabel(mode));
        if Truthy(validationErrors) then Ok(DialogWithErrors(view, validationErrors)) else Ok(Dialog(view))
  }

  // ---------------------------------------------------------------------
  // saveAction: defaults, rebuild rule

  predicate SaveDefaultKey(k: string) {
    k == "is_locked" || k == "is_leaf" || k == "status"
  }

  /** The three defaults `saveAction` fills into the posted category: unset
      `is_locked` and `is_leaf` become 0, an unset `status` becomes `I`; set
      values and every other field are kept. */
  function SaveDefaulted(data: Entity): (d: Entity)
    ensures d.Keys == data.Keys + {"is_locked", "is_leaf", "status"}
    ensures d["is_locked"] == (if Isset(data, "is_locked") then data["is_locked"] else Int(0))
    ensures d["is_leaf"] == (if Isset(data, "is_leaf") then data["is_leaf"] else Int(0))
    ensures d["status"] == (if Isset(data, "status") then data["status"] else Str("I"))
    ensures forall k :: k in data && !SaveDefaultKey(k) ==> d[k] == data[k]
  {
    var a := if Isset(data, "is_locked") then data else data["is_locked" := Int(0)];
    var b := if Isset(a, "is_leaf") then a else a["is_leaf" := Int(0)];
    if Isset(b, "status") then b else b["status" := Str("I")]
  }

  /** The three `if (!isset(...))` assignments. */
  method SaveDefaults(data: Entity) returns (d: Entity)
    ensures d == SaveDefaulted(data)
  {
    d := data;
    if !Isset(d, "is_locked") {
      d := d["is_locked" := Int(0)];
    }
    if !Isset(d, "is_leaf") {
      d := d["is_leaf" := Int(0)];
    }
    if !Isset(d, "status") {
      d := d["status" := Str("I")];
    }
  }

  /** `$prevCategoryName != $category['name']` as written: a loose
      comparison, under which two numeric names that denote the same number
      count as unchanged. */
  function NameChangedAsWritten(previous: Value, name: string): (changed: bool)
    ensures previous == Str(name) ==> !changed
    ensures previous == Null ==> (changed <==> name != "")
    ensures previous.Str? && (!IsNumericStr(previous.s) || !IsNumericStr(name)) ==> (changed <==> previous.s != name)
  {
    !LooseEqStr(previous, name)
  }

  /** The rebuild rule as intended: the path is rebuilt whenever the stored
      name is not the new name. */
  function NameChanged(previous: Value, name: string): (changed: bool)
    ensures previous.Str? ==> (changed <==> previous.s != name)
    ensures !previous.Str? ==> changed
  {
    previous != Str(name)
  }

  lemma ScanTen()
    ensures ScanNumber("10") == Scan(2, 10.0)
  {
    assert WhiteEnd("10", 0) == 0 && DigitsEnd("10", 0) == 2;
    assert "10"[0..2] + "10"[2..2] == "10";
    assert DecimalValue("10") == 10 by {
      assert "10"[..1] == "1";
      assert "1"[..0] == "";
    }
  }

  lemma ScanOneEOne()
    ensures ScanNumber("1e1") == Scan(3, 10.0)
  {
    assert WhiteEnd("1e1", 0) == 0 && DigitsEnd("1e1", 0) == 1;
    assert DecimalValue("1") == 1 by {
      assert "1"[..0] == "";
    }
    assert "1e1"[0..1] + "1e1"[1..1] == "1";
    assert DigitsEnd("1e1", 2) == 3;
    assert "1e1"[2..3] == "1";
    assert Pow10(1) == 10.0;
  }

  /** Renaming category "10" to "1e1" changes its path, yet the loose rule
      skips the rebuild; the strict one requests it. */
  lemma RenameToEqualNumber()
    ensures !NameChangedAsWritten(Str("10"), "1e1")
    ensures NameChanged(Str("10"), "1e1")
  {
    ScanTen();
    ScanOneEOne();
  }

  /** For names that are not both numeric the two rules coincide. */
  lemma RebuildRulesAgree(previous: string, name: string)
    requires !IsNumericStr(previous) || !IsNumericStr(name)
    ensures NameChangedAsWritten(Str(previous), name) <==> NameChanged(Str(previous), name)
  {
    LooseEqStringsNonNumeric(previous, name);
  }

  // ---------------------------------------------------------------------
  // The leaf / non-leaf split

  /** The ids of the categories whose `is_leaf` flag has the given truth
      value, in their original order. */
  function LeafIds(cats: seq<Entity>, leaf: bool): seq<Value>
    decreases |cats|
  {
    if cats == [] then []
    else
      var c := cats[|cats| - 1];
      LeafIds(cats[..|cats| - 1], leaf) + (if Truthy(At(c, "is_leaf")) == leaf then [At(c, "id")] else [])
  }

  function Ids(cats: seq<Entity>): (ids: seq<Value>)
    ensures |ids| == |cats|
    ensures forall i :: 0 <= i < |cats| ==> ids[i] == At(cats[i], "id")
  {
    seq(|cats|, i requires 0 <= i < |cats| => At(cats[i], "id"))
  }

  /** The `leafstatus` loop shared by the copy, delete-and-move and save
      handlers. */
  method LeafStatus(cats: seq<Entity>) returns (leaf: seq<Value>, noleaf: seq<Value>)
    ensures leaf == LeafIds(cats, true)
    ensures noleaf == LeafIds(cats, false)
  {
    leaf, noleaf := [], [];
    var i := 0;
    while i < |cats|
      invariant 0 <= i <= |cats|
      invariant leaf == LeafIds(cats[..i], true)
      invariant noleaf == LeafIds(cats[..i], false)
    {
      assert cats[..i + 1][..i] == cats[..i];
      if Truthy(At(cats[i], "is_leaf")) {
        leaf := leaf + [At(cats[i], "id")];
      } else {
        noleaf := noleaf + [At(cats[i], "id")];
      }
      i := i + 1;
    }
    assert cats[..i] == cats;
  }

  /** Every category id lands in exactly one of the two lists: together they
      hold each id as often as the categories do. */
  lemma {:induction false} LeafPartition(cats: seq<Entity>)
    ensures |LeafIds(cats, true)| + |LeafIds(cats, false)| == |cats|
    ensures multiset(LeafIds(cats, true)) + multiset(LeafIds(cats, false)) == multiset(Ids(cats))
    decreases |cats|
  {
    if cats != [] {
      var front := cats[..|cats| - 1];
      LeafPartition(front);
      assert Ids(cats) == Ids(front) + [At(cats[|cats| - 1], "id")];
    }
  }

  /** A category's id is in the list its own flag selects. */
  lemma {:induction false} LeafPlacement(cats: seq<Entity>, i: nat)
    requires i < |cats|
    ensures At(cats[i], "id") in LeafIds(cats, Truthy(At(cats[i], "is_leaf")))
    decreases |cats|
  {
    if i < |cats| - 1 {
      LeafPlacement(cats[..|cats| - 1], i);
    }
  }

  // ---------------------------------------------------------------------
  // Resequencing

  /** The entity manager's reference to a category id. */
  function Reference(id: Value): Value {
    Table(map["id" := id])
  }

  /** A category after it is given the line number and the parent posted for
      it. */
  function Moved(c: Entity, posted: Value): (m: Entity)
    ensures m.Keys == c.Keys + {"sort_value", "parent"}
    ensures m["sort_value"] == At(Entries(posted), "lineno")
    ensures m["parent"] == Reference(At(Entries(posted), "parent"))
    ensures forall k :: k in c && k != "sort_value" && k != "parent" ==> m[k] == c[k]
  {
    c["sort_value" := At(Entries(posted), "lineno")]["parent" := Reference(At(Entries(posted), "parent"))]
  }

  /** Moving twice with the same posted data is moving once. */
  lemma MovedIdempotent(c: Entity, posted: Value)
    ensures Moved(Moved(c, posted), posted) == Moved(c, posted)
  {
  }

  /** Whether the posted data holds an entry for category `id`. */
  predicate Posted(data: map<string, Value>, id: int) {
    Isset(data, IntToString(id))
  }

  /** The store after the resequencing loop has visited `cats` in order. */
  function Resequenced(store: map<int, Entity>, data: map<string, Value>, cats: seq<int>): (r: map<int, Entity>)
    ensures r.Keys == store.Keys
    ensures forall id :: id in store ==>
              r[id] == if id in cats && Posted(data, id) then Moved(store[id], data[IntToString(id)]) else store[id]
    decreases |cats|
  {
    if cats == [] then store
    else
      var s := Resequenced(store, data, cats[..|cats| - 1]);
      var id := cats[|cats| - 1];
      if Posted(data, id) && id in s then
        MovedIdempotent(store[id], data[IntToString(id)]);
        s[id := Moved(s[id], data[IntToString(id)])]
      else s
  }

  /** A registry entry's status after `activate` (A) or `deactivate` (I). */
  function WithStatus(e: Entity, status: string): (r: Entity)
    ensures r.Keys == e.Keys + {"status"}
    ensures r["status"] == Str(status)
    ensures forall k :: k in e && k != "status" ==> r[k] == e[k]
  {
    e["status" := Str(status)]
  }

  /** The entities the Ajax controller reads and writes. */
  class CategoryStore {
    /** Category entities by id. */
    var categories: map<int, Entity>
    /** Category registry entities by id. */
    var registry: map<int, Entity>

    constructor (categories: map<int, Entity>, registry: map<int, Entity>)
      ensures this.categories == categories && this.registry == registry
    {
      this.categories := categories;
      this.registry := registry;
    }

    /** `resequenceAction`: with edit permission, each listed category with
        an entry in the posted data gets that entry's line number and parent;
        every other category stays as it was. The handler builds a result
        array but ends without returning it, so no response is sent back
        (`Ok(None)`). */
    method Resequence(canEdit: bool, data: Value, cats: seq<int>) returns (r: Result<Option<bool>>)
      modifies this`categories
      ensures !canEdit ==> r == Err(AccessDenied) && categories == old(categories)
      ensures canEdit ==> r == Ok(None) && categories == Resequenced(old(categories), Entries(data), cats)
    {
      if !canEdit {
        return Err(AccessDenied);
      }
      var posted := Entries(data);
      var i := 0;
      while i < |cats|
        invariant 0 <= i <= |cats|
        invariant categories == Resequenced(old(categories), posted, cats[..i])
      {
        var cid := cats[i];
        assert cats[..i + 1][..i] == cats[..i];
        if Isset(posted, IntToString(cid)) && cid in categories {
          var entry := posted[IntToString(cid)];
          categories := categories[cid := Moved(categories[cid], entry)];
        }
        i := i + 1;
      }
      assert cats[..i] == cats;
      r := Ok(None);
    }

    /** The common body of `activateAction` and `deactivateAction`: with edit
        permission the entry the posted id names, if any, gets the status;
        nothing else changes. */
    method SetStatus(canEdit: bool, cid: Option<int>, status: string) returns (r: Result<bool>)
      modifies this`registry
      ensures !canEdit ==> r == Err(AccessDenied)
      ensures canEdit ==> r == Ok(true)
      ensures registry == if canEdit && cid.Some? && cid.value in old(registry)
                          then old(registry)[cid.value := WithStatus(old(registry)[cid.value], status)]
                          else old(registry)
    {
      if !canEdit {
        return Err(AccessDenied);
      }
      if cid.Some? && cid.value in registry {
        registry := registry[cid.value := WithStatus(registry[cid.value], status)];
      }
      r := Ok(true);
    }

    method Activate(canEdit: bool, cid: Option<int>) returns (r: Result<bool>)
      modifies this`registry
      ensures r == if canEdit then Ok(true) else Err(AccessDenied)
      ensures registry == if canEdit && cid.Some? && cid.value in old(registry)
                          then old(registry)[cid.value := WithStatus(old(registry)[cid.value], "A")]
                          else old(registry)
    {
      r := SetStatus(canEdit, cid, "A");
    }

    method Deactivate(canEdit: bool, cid: Option<int>) returns (r: Result<bool>)
      modifies this`registry
      ensures r == if canEdit then Ok(true) else Err(AccessDenied)
      ensures registry == if canEdit && cid.Some? && cid.value in old(registry)
                          then old(registry)[cid.value := WithStatus(old(registry)[cid.value], "I")]
                          else old(registry)
    {
      r := SetStatus(canEdit, cid, "I");
    }
  }

  // ---------------------------------------------------------------------
  // saveAction

  /** How `saveAction` ends when it gets past the permission check: the edit
      dialog again for data that do not validate, or the saved category's
      action label, whether its paths are rebuilt, and the leaf split of its
      subcategories. */
  datatype SaveResponse =
    | Redisplayed(response: EditResponse)
    | Saved(action: string, rebuildPaths: bool, leaf: seq<Value>, noleaf: seq<Value>)

  /** The edit dialog `saveAction` falls back to for data that do not
      validate: `editAction` called with the posted category's id (0 when
      unset), its parent id and the mode. */
  function Redisplay(data: Entity, mode: Value, post: map<string, Value>, permitted: AccessLevel -> bool,
                     lookup: Value -> Option<Entity>, validationErrors: Value): Result<SaveResponse>
  {
    var args := map["cid" := if Isset(data, "cid") then data["cid"] else Int(0),
                    "parent" := At(data, "parent_id"),
                    "mode" := mode];
    match EditCategory(args, post, permitted, lookup, validationErrors)
    case Err(f) => Err(f)
    case Ok(response) => Ok(Redisplayed(response))
  }

  /** The entity `saveAction` merges the posted data into: in edit mode the
      one `find` loads by the posted id (None when there is none), otherwise
      a fresh entity, whose name is `newName`. */
  function Target(mode: Value, data: Entity, find: Value -> Option<Entity>, newName: Value): Option<Entity> {
    if LooseEqStr(mode, "edit") then find(At(data, "id")) else Some(map["name" := newName])
  }

  /** `saveAction`. `valid` stands for the category-data validation,
      `lookup` and `validationErrors` for what the edit dialog reads, `find`
      for the entity manager's lookup by id and `newName` for the name of a
      freshly constructed entity, `processName` for the name clean-up, and
      `subcategories` for the saved category's subtree. In edit mode an id
      that names no entity makes `$category->merge()` run on null, a fatal
      error. */
  method SaveAction(post: map<string, Value>, permitted: AccessLevel -> bool, valid: Entity -> bool,
                    lookup: Value -> Option<Entity>, validationErrors: Value,
                    find: Value -> Option<Entity>, newName: Value,
                    processName: Value -> string, subcategories: seq<Entity>)
    returns (r: Result<SaveResponse>)
    ensures !permitted(AccessLevelFor(Get(post, "mode", Str("new")))) ==> r == Err(AccessDenied)
    ensures permitted(AccessLevelFor(Get(post, "mode", Str("new")))) ==>
              var mode := Get(post, "mode", Str("new"));
              var d := SaveDefaulted(Entries(Get(post, "category", Null)));
              && (!valid(d) ==> r == Redisplay(d, mode, post, permitted, lookup, validationErrors))
              && (valid(d) && LooseEqStr(mode, "edit") && find(At(d, "id")).None? ==> r == Err(Fatal))
              && (valid(d) && Target(mode, d, find, newName).Some? ==> r.Ok? && r.value.Saved?)
    ensures r.Ok? && r.value.Saved? ==>
              var mode := Get(post, "mode", Str("new"));
              && r.value.action == SaveActionLabel(mode)
              && r.value.leaf == LeafIds(subcategories, true)
              && r.value.noleaf == LeafIds(subcategories, false)
    ensures r.Ok? && r.value.Saved? ==>
              var d := SaveDefaulted(Entries(Get(post, "category", Null)));
              var target := Target(Get(post, "mode", Str("new")), d, find, newName);
              && target.Some?
              && r.value.rebuildPaths == NameChanged(At(target.value, "name"), processName(At(d, "name")))
  {
    var mode := Get(post, "mode", Str("new"));
    if !permitted(AccessLevelFor(mode)) {
      return Err(AccessDenied);
    }
    var data := Entries(Get(post, "category", Null));
    data := SaveDefaults(data);
    if !valid(data) {
      return Redisplay(data, mode, post, permitted, lookup, validationErrors);
    }
    var target := Target(mode, data, find, newName);
    if target.None? {
      return Err(Fatal);
    }
    var name := processName(At(data, "name"));
    var rebuild := NameChanged(At(target.value, "name"), name);
    var leaf, noleaf := LeafStatus(subcategories);
    r := Ok(Saved(SaveActionLabel(mode), rebuild, leaf, noleaf));
  }
}
