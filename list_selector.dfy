/** The state of a form list selector (the common base of check-box lists and
    drop-down lists): creation defaults, the validation flag, the item list,
    and how the selected value is written to and read from the render's
    nested key/value data. */
module FormListSelector {
  import opened Php

  /** One selectable entry, `array('text' => t, 'value' => v)`. */
  function Item(text: Value, value: Value): Value {
    Table(map["text" := text, "value" := value])
  }

  /** The top-level key that `saveValue` writes: the data field itself, or the
      group under which the data field lives. None when nothing is written. */
  function WrittenKey(dataBased: Value, group: Value, dataField: Value): Option<string> {
    if !Truthy(dataBased) then None
    else if LooseNull(group) then KeyOf(dataField)
    else KeyOf(group)
  }

  /** The group entry after `$data[$group][$dataField] = $v`: a table gets the
      key; a missing entry, null, false and the empty string (which PHP 7.0
      turns into an array) become a one-entry table; an integer or true is a
      scalar PHP refuses to index, and stays as it was. */
  function GroupEntryAfterWrite(entry: Value, dataField: Value, v: Value): Value {
    match KeyOf(dataField)
    case None => entry
    case Some(f) =>
      if entry.Table? then Table(entry.entries[f := v])
      else if entry == Null || entry == Bool(false) || entry == Str("") then Table(map[f := v])
      else entry
  }

  /** `saveValue` on the data table, storing `v` as the selected value. */
  function StoreSelected(data: map<string, Value>, dataBased: Value, group: Value, dataField: Value, v: Value)
    : (r: map<string, Value>)
    ensures WrittenKey(dataBased, group, dataField) == None ==> r == data
    ensures forall k :: k in data && Some(k) != WrittenKey(dataBased, group, dataField) ==> k in r && r[k] == data[k]
    ensures forall k :: k in r ==> k in data || Some(k) == WrittenKey(dataBased, group, dataField)
    ensures Truthy(dataBased) && LooseNull(group) && KeyOf(dataField).Some? ==>
              r == data[KeyOf(dataField).value := v]
    ensures Truthy(dataBased) && !LooseNull(group) && KeyOf(group).Some? ==>
              var g := KeyOf(group).value;
              g in r && r[g] == GroupEntryAfterWrite(if g in data then data[g] else Table(map[]), dataField, v)
  {
    if !Truthy(dataBased) then data
    else if LooseNull(group) then
      match KeyOf(dataField)
      case None => data
      case Some(f) => data[f := v]
    else
      match KeyOf(group)
      case None => data
      case Some(g) =>
        var entry := if g in data then data[g] else Table(map[]);
        data[g := GroupEntryAfterWrite(entry, dataField, v)]
  }

  /** Writing into a group table keeps every other key of that table. */
  lemma GroupWriteKeepsOtherKeys(entry: map<string, Value>, dataField: Value, v: Value, k: string)
    requires k in entry && Some(k) != KeyOf(dataField)
    ensures var e := GroupEntryAfterWrite(Table(entry), dataField, v);
            e.Table? && k in e.entries && e.entries[k] == entry[k]
  {
  }

  /** `isset($m[$key])` for a key given as a value. */
  predicate IssetAt(m: map<string, Value>, key: Value) {
    KeyOf(key).Some? && Isset(m, KeyOf(key).value)
  }

  /** The table a lookup goes through: the whole data without a group, the
      group's entry with one, or nothing when the group is not set. */
  function LookupScope(values: map<string, Value>, group: Value): Option<map<string, Value>> {
    if LooseNull(group) then Some(values)
    else if IssetAt(values, group) then Some(Entries(values[KeyOf(group).value]))
    else None
  }

  /** The value `loadValue` hands to `setSelectedValue`: the one found under
      the data field, null when it (or the group) is missing. Without a group
      a null-like data field name is not looked up. */
  function FoundSelected(values: map<string, Value>, group: Value, dataField: Value): (r: Value)
    ensures var s := LookupScope(values, group);
            r != Null <==> s.Some? && !(LooseNull(group) && LooseNull(dataField)) && IssetAt(s.value, dataField)
    ensures var s := LookupScope(values, group);
            r != Null ==> r == s.value[KeyOf(dataField).value]
  {
    match LookupScope(values, group)
    case None => Null
    case Some(scope) =>
      if LooseNull(group) && LooseNull(dataField) then Null
      else if IssetAt(scope, dataField) then scope[KeyOf(dataField).value]
      else Null
  }

  /** The item list `loadValue` finds, null when there is none. */
  function FoundItems(values: map<string, Value>, group: Value, itemsDataField: Value): (r: Value)
    ensures var s := LookupScope(values, group);
            r != Null <==> !LooseNull(itemsDataField) && s.Some? && IssetAt(s.value, itemsDataField)
    ensures var s := LookupScope(values, group);
            r != Null ==> r == s.value[KeyOf(itemsDataField).value]
  {
    match LookupScope(values, group)
    case None => Null
    case Some(scope) =>
      if !LooseNull(itemsDataField) && IssetAt(scope, itemsDataField) then scope[KeyOf(itemsDataField).value]
      else Null
  }

  /** Loading right after saving finds the value that was saved, as long as
      the place written to can hold it: a legal data field key (not null-like
      when there is no group) and a group entry that is a table, null, false,
      the empty string or absent. */
  lemma LoadAfterSave(data: map<string, Value>, group: Value, dataField: Value, v: Value)
    requires KeyOf(dataField).Some?
    requires LooseNull(group) ==> !LooseNull(dataField)
    requires !LooseNull(group) ==> KeyOf(group).Some?
    requires !LooseNull(group) && KeyOf(group).value in data ==>
               var e := data[KeyOf(group).value]; e.Table? || e == Null || e == Bool(false) || e == Str("")
    ensures FoundSelected(StoreSelected(data, Bool(true), group, dataField, v), group, dataField) == v
  {
    var r := StoreSelected(data, Bool(true), group, dataField, v);
    var f := KeyOf(dataField).value;
    if LooseNull(group) {
      assert r == data[f := v];
      assert LookupScope(r, group) == Some(r);
    } else {
      var g := KeyOf(group).value;
      var entry := if g in data then data[g] else Table(map[]);
      assert r[g] == GroupEntryAfterWrite(entry, dataField, v);
      assert r[g].Table? && f in r[g].entries && r[g].entries[f] == v;
      assert IssetAt(r, group);
    }
  }

  class BaseListSelector {
    /** The plugin id, given by the page that declares the plugin. */
    const id: string
    var inputName: Value
    var readOnly: Value
    var dataField: Value
    var dataBased: Value
    var group: Value
    var itemsDataField: Value
    var isValid: bool
    var mandatory: Value
    var errorMessage: Value
    var items: seq<Value>

    /** A new plugin object: every property is null except `isValid`, which
        starts true, and `items`, which starts empty. */
    constructor (id: string)
      ensures this.id == id && isValid && items == []
      ensures inputName == Null && readOnly == Null && dataField == Null && dataBased == Null
      ensures group == Null && itemsDataField == Null && mandatory == Null && errorMessage == Null
    {
      this.id := id;
      inputName, readOnly, dataField, dataBased := Null, Null, Null, Null;
      group, itemsDataField, mandatory, errorMessage := Null, Null, Null, Null;
      isValid := true;
      items := [];
    }

    /** The create event: `dataField` takes a passed value even when it is
        null (array_key_exists), `itemsDataField` falls back to the id plus
        "Items" when the passed value is null or missing (isset). */
    method Create(params: map<string, Value>)
      modifies this
      ensures inputName == Str(id)
      ensures readOnly == (if "readOnly" in params then params["readOnly"] else Bool(false))
      ensures dataBased == (if "dataBased" in params then params["dataBased"] else Bool(true))
      ensures dataField == (if "dataField" in params then params["dataField"] else Str(id))
      ensures itemsDataField == (if Isset(params, "itemsDataField") then params["itemsDataField"] else Str(id + "Items"))
      ensures mandatory == (if "mandatory" in params then params["mandatory"] else Bool(false))
      ensures isValid
      ensures group == old(group) && errorMessage == old(errorMessage) && items == old(items)
    {
      inputName := Str(id);
      readOnly := if "readOnly" in params then params["readOnly"] else Bool(false);
      dataBased := if "dataBased" in params then params["dataBased"] else Bool(true);
      dataField := if "dataField" in params then params["dataField"] else Str(id);
      itemsDataField := if Isset(params, "itemsDataField") then params["itemsDataField"] else Str(id + "Items");
      isValid := true;
      mandatory := if "mandatory" in params then params["mandatory"] else Bool(false);
    }

    method SetError(msg: Value)
      modifies this`isValid, this`errorMessage
      ensures !isValid && errorMessage == msg
    {
      isValid := false;
      errorMessage := msg;
    }

    method ClearValidation()
      modifies this`isValid, this`errorMessage
      ensures isValid && errorMessage == Null
    {
      isValid := true;
      errorMessage := Null;
    }

    /** The base class has no selection of its own: it always reports null. */
    function GetSelectedValue(): (v: Value)
      ensures v == Null
    {
      Null
    }

    /** The base class accepts any value and keeps nothing. */
    method SetSelectedValue(value: Value) returns (ok: bool)
      ensures ok
    {
      ok := true;
    }

    /** `saveValue($render, &$data)`: the data table after the call. Nothing is
        written unless the plugin is data based; otherwise the selected value
        (null in the base class) goes under the data field, inside the group's
        table when there is a group, and every other key keeps its value. */
    method SaveValue(data: map<string, Value>) returns (data': map<string, Value>)
      ensures data' == StoreSelected(data, dataBased, group, dataField, GetSelectedValue())
      ensures !Truthy(dataBased) ==> data' == data
      ensures Truthy(dataBased) && LooseNull(group) && KeyOf(dataField).Some? ==>
                data' == data[KeyOf(dataField).value := Null]
      ensures forall k :: k in data && Some(k) != WrittenKey(dataBased, group, dataField) ==> k in data' && data'[k] == data[k]
    {
      data' := data;
      if Truthy(dataBased) {
        if LooseNull(group) {
          var f := KeyOf(dataField);
          if f.Some? {
            data' := data'[f.value := GetSelectedValue()];
          }
        } else {
          var g := KeyOf(group);
          if g.Some? {
            if g.value !in data' {
              data' := data'[g.value := Table(map[])];
            }
            data' := data'[g.value := GroupEntryAfterWrite(data'[g.value], dataField, GetSelectedValue())];
          }
        }
      }
    }

    /** `loadValue($render, &$values)`: when data based, the item list is
        replaced by a list found under the items key (and kept otherwise), and
        the value found under the data field, or null, is handed to
        `setSelectedValue`; the result is that value, None when the plugin is
        not data based. */
    method LoadValue(values: map<string, Value>) returns (selected: Option<Value>)
      modifies this`items
      ensures selected == if Truthy(dataBased) then Some(FoundSelected(values, group, dataField)) else None
      ensures items == if Truthy(dataBased) && FoundItems(values, group, itemsDataField).List?
                       then FoundItems(values, group, itemsDataField).elems else old(items)
    {
      selected := None;
      if Truthy(dataBased) {
        var found := Null;
        var value := Null;
        if LooseNull(group) {
          if !LooseNull(dataField) && IssetAt(values, dataField) {
            value := values[KeyOf(dataField).value];
          }
          if !LooseNull(itemsDataField) && IssetAt(values, itemsDataField) {
            found := values[KeyOf(itemsDataField).value];
          }
        } else if IssetAt(values, group) {
          var data := Entries(values[KeyOf(group).value]);
          if IssetAt(data, dataField) {
            value := data[KeyOf(dataField).value];
          }
          if !LooseNull(itemsDataField) && IssetAt(data, itemsDataField) {
            found := data[KeyOf(itemsDataField).value];
          }
        }
        if found.List? {
          SetItems(found.elems);
        }
        var _ := SetSelectedValue(value);
        selected := Some(value);
      }
    }

    /** `addItem($text, $value)` appends one entry at the end. */
    method AddItem(text: Value, value: Value)
      modifies this`items
      ensures items == old(items) + [Item(text, value)]
      ensures |items| == |old(items)| + 1 && items[..|old(items)|] == old(items)
    {
      items := items + [Item(text, value)];
    }

    method SetItems(xs: seq<Value>)
      modifies this`items
      ensures items == xs
    {
      items := xs;
    }
  }
}
