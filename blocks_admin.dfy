/** The request-handling rules of the Blocks module's admin controller: the
    block-list filter, the new-block id split and defaults, the block-position
    name check, the placed/unassigned partition of blocks for a position,
    the configuration default, and the id selection of the two delete
    handlers. Permission checks and lookups are inputs. */
module BlocksAdmin {
  import opened Php
  import opened Framework

  // ---------------------------------------------------------------------
  // viewAction: the list filter

  /** The filter after `viewAction` and whether the session copy is reset. */
  datatype FilterView = FilterView(filter: map<string, Value>, clearSession: bool)

  /** The filter the normalisation starts from: the posted filter (the
      session's when none is posted), or an empty one when `clear` is set. */
  function BaseFilter(session: Value, post: map<string, Value>): map<string, Value> {
    if Truthy(Get(post, "clear", Int(0))) then map[] else Entries(Get(post, "filter", session))
  }

  /** The sort key used when the query has none: the filter's own, lowercased,
      when it is set and not empty, `bid` otherwise. */
  function DefaultSort(f: map<string, Value>): (r: Value)
    ensures !(Isset(f, "sort") && Truthy(f["sort"])) ==> r == Str("bid")
    ensures Isset(f, "sort") && Truthy(f["sort"]) && f["sort"].Str? ==> r == Str(Lower(f["sort"].s))
  {
    if Isset(f, "sort") && !Empty(f["sort"]) then StrToLower(f["sort"]) else Str("bid")
  }

  /** The sort direction used when the query has none: the filter's own,
      uppercased, when set and not empty, `ASC` otherwise. */
  function DefaultSortDir(f: map<string, Value>): (r: Value)
    ensures r.Str? || r == Null
    ensures !(Isset(f, "sortdir") && Truthy(f["sortdir"])) ==> r == Str("ASC")
    ensures Isset(f, "sortdir") && Truthy(f["sortdir"]) && f["sortdir"].Str? ==> r == Str(Upper(f["sortdir"].s))
  {
    if Isset(f, "sortdir") && !Empty(f["sortdir"]) then StrToUpper(f["sortdir"]) else Str("ASC")
  }

  /** `if ($d != 'ASC' && $d != 'DESC') $d = 'ASC'`. A string survives only
      when it is exactly `ASC` or `DESC` (so `desc` becomes `ASC`); null and
      arrays become `ASC`. */
  function ClampSortDir(d: Value): (r: Value)
    ensures LooseEqStr(r, "ASC") || LooseEqStr(r, "DESC")
    ensures d.Str? ==> r == (if d.s == "DESC" then Str("DESC") else Str("ASC"))
    ensures d.Null? || d.List? || d.Table? ==> r == Str("ASC")
  {
    LooseEqWordLiteral("ASC");
    LooseEqWordLiteral("DESC");
    if !LooseEqStr(d, "ASC") && !LooseEqStr(d, "DESC") then Str("ASC") else d
  }

  /** The four filter fields that get a default when they are not set. */
  predicate DefaultedKey(k: string) {
    k == "blockposition_id" || k == "module_id" || k == "language" || k == "active_status"
  }

  function FieldDefault(k: string): Value {
    if k == "language" then Str("") else Int(0)
  }

  /** The sort step of `viewAction`: `sort` and `sortdir` are taken from the
      query, or else from the filter itself, and the direction is clamped;
      every other entry is kept. */
  function Sorted(filter: map<string, Value>, query: map<string, Value>): (f: map<string, Value>)
    ensures f.Keys == filter.Keys + {"sort", "sortdir"}
    ensures f["sort"] == Get(query, "sort", DefaultSort(filter))
    ensures f["sortdir"] == ClampSortDir(Get(query, "sortdir", DefaultSortDir(filter)))
    ensures forall k :: k in filter && k != "sort" && k != "sortdir" ==> f[k] == filter[k]
  {
    filter["sort" := Get(query, "sort", DefaultSort(filter))]
          ["sortdir" := ClampSortDir(Get(query, "sortdir", DefaultSortDir(filter)))]
  }

  /** The default step of `viewAction`: each of the four fields keeps a set
      value and gets its default otherwise; nothing else changes. */
  function Defaulted(filter: map<string, Value>): (f: map<string, Value>)
    ensures f.Keys == filter.Keys + {"blockposition_id", "module_id", "language", "active_status"}
    ensures forall k :: DefaultedKey(k) ==> f[k] == if Isset(filter, k) then filter[k] else FieldDefault(k)
    ensures forall k :: k in filter && !DefaultedKey(k) ==> f[k] == filter[k]
  {
    filter["blockposition_id" := if Isset(filter, "blockposition_id") then filter["blockposition_id"] else Int(0)]
          ["module_id" := if Isset(filter, "module_id") then filter["module_id"] else Int(0)]
          ["language" := if Isset(filter, "language") then filter["language"] else Str("")]
          ["active_status" := if Isset(filter, "active_status") then filter["active_status"] else Int(0)]
  }

  /** The sort step as `viewAction` performs it, on its filter variable. */
  method ApplySort(filter: map<string, Value>, query: map<string, Value>) returns (f: map<string, Value>)
    ensures f == Sorted(filter, query)
  {
    f := filter;
    var sort := if Isset(f, "sort") && !Empty(f["sort"]) then StrToLower(f["sort"]) else Str("bid");
    var sortdir := if Isset(f, "sortdir") && !Empty(f["sortdir"]) then StrToUpper(f["sortdir"]) else Str("ASC");
    f := f["sort" := Get(query, "sort", sort)];
    f := f["sortdir" := Get(query, "sortdir", sortdir)];
    if !LooseEqStr(f["sortdir"], "ASC") && !LooseEqStr(f["sortdir"], "DESC") {
      f := f["sortdir" := Str("ASC")];
    }
  }

  /** The default step as `viewAction` performs it. */
  method FillDefaults(filter: map<string, Value>) returns (f: map<string, Value>)
    ensures f == Defaulted(filter)
  {
    f := filter;
    f := f["blockposition_id" := if Isset(f, "blockposition_id") then f["blockposition_id"] else Int(0)];
    f := f["module_id" := if Isset(f, "module_id") then f["module_id"] else Int(0)];
    f := f["language" := if Isset(f, "language") then f["language"] else Str("")];
    f := f["active_status" := if Isset(f, "active_status") then f["active_status"] else Int(0)];
  }

  /** The filter normalisation of `viewAction`: edit permission is required;
      a set `clear` empties the filter (and the session copy); then the sort
      step and the default step follow. */
  method NormaliseFilter(canEdit: bool, session: Value, post: map<string, Value>, query: map<string, Value>)
    returns (r: Result<FilterView>)
    ensures r.Err? <==> !canEdit
    ensures r.Err? ==> r.failure == AccessDenied
    ensures r.Ok? ==> r.value.clearSession == Truthy(Get(post, "clear", Int(0)))
    ensures r.Ok? ==> r.value.filter == Defaulted(Sorted(BaseFilter(session, post), query))
  {
    if !canEdit {
      return Err(AccessDenied);
    }
    var filter := Entries(Get(post, "filter", session));
    var clear := Truthy(Get(post, "clear", Int(0)));
    if clear {
      filter := map[];
    }
    filter := ApplySort(filter, query);
    filter := FillDefaults(filter);
    r := Ok(FilterView(filter, clear));
  }

  /** A query direction other than the exact strings `ASC` and `DESC` (a
      lowercase `desc`, say) yields `ASC`. */
  lemma SortDirIsAscOrDesc(d: string)
    ensures ClampSortDir(Str(d)) == Str("ASC") || ClampSortDir(Str(d)) == Str("DESC")
    ensures ClampSortDir(Str(d)) == Str("DESC") <==> d == "DESC"
  {
  }

  // ---------------------------------------------------------------------
  // createAction: the block id and defaults

  /** `explode(':', $s)`: the fields between the colons. */
  function Explode(s: string): (r: seq<string>)
    ensures |r| >= 1
    ensures forall k :: 0 <= k < |r| ==> ':' !in r[k]
  {
    if s == [] then [""]
    else
      var t := Explode(s[1..]);
      if s[0] == ':' then [""] + t else [[s[0]] + t[0]] + t[1..]
  }

  /** `implode(':', $fields)`. */
  function Implode(fs: seq<string>): string
    requires |fs| >= 1
  {
    if |fs| == 1 then fs[0] else fs[0] + ":" + Implode(fs[1..])
  }

  lemma {:induction false} ImplodeExplode(s: string)
    ensures Implode(Explode(s)) == s
  {
    if s != [] {
      var t := Explode(s[1..]);
      ImplodeExplode(s[1..]);
      if s[0] == ':' {
        assert Explode(s) == [""] + t;
        assert ([""] + t)[1..] == t;
      } else {
        var r := [[s[0]] + t[0]] + t[1..];
        assert Explode(s) == r;
        if |t| > 1 {
          assert r[1..] == t[1..];
        }
      }
    }
  }

  lemma {:induction false} ExplodeField(a: string, rest: string)
    requires ':' !in a
    ensures Explode(a) == [a]
    ensures Explode(a + ":" + rest) == [a] + Explode(rest)
  {
    if a == [] {
      assert a + ":" + rest == ":" + rest;
      assert (":" + rest)[1..] == rest;
    } else {
      ExplodeField(a[1..], rest);
      assert (a + ":" + rest)[1..] == a[1..] + ":" + rest;
      assert [a[0]] + a[1..] == a;
    }
  }

  lemma {:induction false} ExplodeImplode(fs: seq<string>)
    requires |fs| >= 1
    requires forall k :: 0 <= k < |fs| ==> ':' !in fs[k]
    ensures Explode(Implode(fs)) == fs
  {
    if |fs| == 1 {
      ExplodeField(fs[0], "");
    } else {
      ExplodeField(fs[0], Implode(fs[1..]));
      ExplodeImplode(fs[1..]);
    }
  }

  /** `list($mid, $bkey) = explode(':', $blockid)`: the first field and the
      second one (null when there is no colon). An array id makes explode
      return null, so both are null. */
  function BlockIdFields(blockid: Value): (Value, Value) {
    match StringArg(blockid)
    case None => (Null, Null)
    case Some(s) =>
      var fs := Explode(s);
      (Str(fs[0]), if |fs| >= 2 then Str(fs[1]) else Null)
  }

  /** A `mid:bkey` id gives back `mid` and `bkey`. */
  lemma BlockIdSplit(mid: string, bkey: string)
    requires ':' !in mid && ':' !in bkey
    ensures BlockIdFields(Str(mid + ":" + bkey)) == (Str(mid), Str(bkey))
  {
    ExplodeField(mid, bkey);
    ExplodeField(bkey, "");
  }

  /** The block keys `createAction` writes besides those posted. */
  predicate CreateKey(k: string) {
    k == "mid" || k == "bkey" || k == "language" || k == "collapsable" || k == "defaultstate"
  }

  /** `createAction` up to the API call: an empty block id is refused;
      otherwise the id is split into `mid` and `bkey`, and `language`,
      `collapsable` and `defaultstate` default to '', 0 and 1 when not set.
      Every other posted field is passed on as it came. */
  method PrepareBlock(block: Value) returns (r: Result<map<string, Value>>)
    ensures r.Err? <==> LooseEqStr(At(Entries(block), "blockid"), "")
    ensures r.Err? ==> r.failure == InvalidArgument
    ensures r.Ok? ==>
              var b0 := Entries(block);
              var b := r.value;
              && b.Keys == b0.Keys + {"mid", "bkey", "language", "collapsable", "defaultstate"}
              && (b["mid"], b["bkey"]) == BlockIdFields(b0["blockid"])
              && b["language"] == (if Isset(b0, "language") then b0["language"] else Str(""))
              && b["collapsable"] == (if Isset(b0, "collapsable") then b0["collapsable"] else Int(0))
              && b["defaultstate"] == (if Isset(b0, "defaultstate") then b0["defaultstate"] else Int(1))
              && (forall k :: k in b0 && !CreateKey(k) ==> b[k] == b0[k])
  {
    var b := Entries(block);
    if LooseEqStr(At(b, "blockid"), "") {
      return Err(InvalidArgument);
    }
    var fields := BlockIdFields(b["blockid"]);
    b := b["mid" := fields.0];
    b := b["bkey" := fields.1];
    if !Isset(b, "language") {
      b := b["language" := Str("")];
    }
    b := b["collapsable" := if Isset(b, "collapsable") then b["collapsable"] else Int(0)];
    b := b["defaultstate" := if Isset(b, "defaultstate") then b["defaultstate"] else Int(1)];
    r := Ok(b);
  }

  // ---------------------------------------------------------------------
  // createpositionAction: the position name

  /** A character of `[a-z0-9_-]` under the case-insensitive flag. */
  predicate PositionChar(c: char) {
    'a' <= c <= 'z' || 'A' <= c <= 'Z' || '0' <= c <= '9' || c == '_' || c == '-'
  }

  predicate AllPositionChars(s: string) {
    forall k :: 0 <= k < |s| ==> PositionChar(s[k])
  }

  /** `preg_match('/^[a-z0-9_-]*$/i', $s)` as PCRE reads it: without the D
      modifier `$` also matches just before a final newline. */
  predicate PatternMatchesAsWritten(s: string) {
    AllPositionChars(s) || (|s| > 0 && s[|s| - 1] == '\n' && AllPositionChars(s[..|s| - 1]))
  }

  /** The accepted position: its name and description. */
  datatype NewPosition = NewPosition(name: Value, description: Value)

  /** The input check of `createpositionAction`, with the pattern as written. */
  function CheckPositionAsWritten(canAdmin: bool, position: Value): (r: Result<NewPosition>)
    ensures !canAdmin ==> r == Err(AccessDenied)
    ensures canAdmin ==>
              var p := Entries(position);
              (r.Ok? <==> Isset(p, "name") && Truthy(p["name"]) && StringArg(p["name"]).Some? &&
                          PatternMatchesAsWritten(StringArg(p["name"]).value) && Isset(p, "description"))
    ensures r.Err? ==> r.failure == AccessDenied || r.failure == InvalidArgument
    ensures r.Ok? ==> r.value == NewPosition(Entries(position)["name"], Entries(position)["description"])
  {
    var p := Entries(position);
    if !canAdmin then Err(AccessDenied)
    else if !Isset(p, "name") || Empty(p["name"]) || StringArg(p["name"]).None?
            || !PatternMatchesAsWritten(StringArg(p["name"]).value) || !Isset(p, "description")
    then Err(InvalidArgument)
    else Ok(NewPosition(p["name"], p["description"]))
  }

  /** A name made of letters, digits, `_` and `-` only. */
  predicate ValidPositionName(name: Value) {
    Truthy(name) && StringArg(name).Some? && AllPositionChars(StringArg(name).value)
  }

  /** The input check with the pattern anchored at the very end of the name:
      admin permission first, then a set, non-empty name of position
      characters only and a set description. */
  function CheckPosition(canAdmin: bool, position: Value): (r: Result<NewPosition>)
    ensures !canAdmin ==> r == Err(AccessDenied)
    ensures canAdmin ==>
              var p := Entries(position);
              (r.Ok? <==> Isset(p, "name") && ValidPositionName(p["name"]) && Isset(p, "description"))
    ensures r.Err? ==> r.failure == AccessDenied || r.failure == InvalidArgument
    ensures r.Ok? ==> r.value == NewPosition(Entries(position)["name"], Entries(position)["description"])
  {
    var p := Entries(position);
    if !canAdmin then Err(AccessDenied)
    else if !Isset(p, "name") || !ValidPositionName(p["name"]) || !Isset(p, "description")
    then Err(InvalidArgument)
    else Ok(NewPosition(p["name"], p["description"]))
  }

  /** The check as written accepts exactly what the anchored check accepts,
      plus valid names followed by one newline. */
  lemma PositionCheckDifference(canAdmin: bool, position: Value)
    ensures CheckPositionAsWritten(canAdmin, position).Ok? <==>
              CheckPosition(canAdmin, position).Ok? ||
              (canAdmin && var p := Entries(position);
               Isset(p, "name") && Isset(p, "description") && StringArg(p["name"]).Some? &&
               var s := StringArg(p["name"]).value;
               |s| > 0 && s[|s| - 1] == '\n' && AllPositionChars(s[..|s| - 1]))
  {
    var p := Entries(position);
    if canAdmin && Isset(p, "name") && StringArg(p["name"]).Some? {
      var s := StringArg(p["name"]).value;
      if |s| > 0 && s[|s| - 1] == '\n' {
        assert Truthy(p["name"]) by {
          assert p["name"] != Str("") && p["name"] != Str("0");
          assert p["name"].Int? ==> IntToString(p["name"].i) == s;
          if p["name"].Int? {
            assert p["name"].i != 0 by {
              assert NatToString(0) == "0";
            }
          }
        }
      }
    }
  }

  /** "main\n" is accepted by the check as written and refused by the
      anchored one. */
  lemma TrailingNewlineAccepted()
    ensures CheckPositionAsWritten(true, Table(map["name" := Str("main\n"), "description" := Str("")])).Ok?
    ensures CheckPosition(true, Table(map["name" := Str("main\n"), "description" := Str("")])).Err?
  {
    var s := "main\n";
    assert s[..|s| - 1] == "main";
    assert !PositionChar(s[4]);
  }

  // ---------------------------------------------------------------------
  // modifypositionAction: placed and unassigned blocks

  /** One defined block, with the name of the module that holds it. */
  datatype BlockRow = BlockRow(bid: int, modname: Value)

  /** The blocks whose id is not among `bids`, in their original order. */
  function Unplaced(all: seq<BlockRow>, bids: seq<int>): (r: seq<BlockRow>)
    ensures |r| <= |all|
    decreases |all|
  {
    if all == [] then []
    else Unplaced(all[..|all| - 1], bids) + (if all[|all| - 1].bid in bids then [] else [all[|all| - 1]])
  }

  /** The module name of the last block with the given id, if any. */
  function LastModname(blocks: seq<BlockRow>, bid: int): Option<Value>
    decreases |blocks|
  {
    if blocks == [] then None
    else if blocks[|blocks| - 1].bid == bid then Some(blocks[|blocks| - 1].modname)
    else LastModname(blocks[..|blocks| - 1], bid)
  }

  /** The details shown for the i-th placement: the block's info, with the
      module name of the last matching block that earlier placements have not
      already taken. */
  function AssignedEntry(info: int -> map<string, Value>, all: seq<BlockRow>, placements: seq<int>, i: nat)
    : map<string, Value>
    requires i < |placements|
  {
    WithModname(info, Unplaced(all, placements[..i]), placements[i])
  }

  lemma {:induction false} UnplacedNothing(all: seq<BlockRow>)
    ensures Unplaced(all, []) == all
    decreases |all|
  {
    if all != [] {
      UnplacedNothing(all[..|all| - 1]);
    }
  }

  /** Removing the blocks of one more placement from what is left is the same
      as removing all of them at once. */
  lemma {:induction false} UnplacedStep(all: seq<BlockRow>, bids: seq<int>, p: int)
    ensures Unplaced(Unplaced(all, bids), [p]) == Unplaced(all, bids + [p])
    decreases |all|
  {
    if all != [] {
      var front := all[..|all| - 1];
      var x := all[|all| - 1];
      var u := Unplaced(front, bids);
      UnplacedStep(front, bids, p);
      if x.bid !in bids {
        assert (u + [x])[..|u + [x]| - 1] == u;
      } else {
        assert u + [] == u;
      }
    }
  }

  /** A block is unassigned exactly when its id is not placed. */
  lemma {:induction false} UnplacedMembers(all: seq<BlockRow>, bids: seq<int>, b: BlockRow)
    ensures b in Unplaced(all, bids) <==> b in all && b.bid !in bids
    decreases |all|
  {
    if all != [] {
      UnplacedMembers(all[..|all| - 1], bids, b);
      assert all == all[..|all| - 1] + [all[|all| - 1]];
    }
  }

  /** The first placement of an id sees every block with that id. */
  lemma {:induction false} FirstPlacementSeesAll(all: seq<BlockRow>, bids: seq<int>, p: int)
    requires p !in bids
    ensures LastModname(Unplaced(all, bids), p) == LastModname(all, p)
    decreases |all|
  {
    if all != [] {
      var front := all[..|all| - 1];
      var x := all[|all| - 1];
      var u := Unplaced(front, bids);
      FirstPlacementSeesAll(front, bids, p);
      if x.bid !in bids {
        assert (u + [x])[..|u + [x]| - 1] == u;
      } else {
        assert u + [] == u;
        assert x.bid != p;
      }
    }
  }

  /** The block details for placement `p` with the module name of the last
      matching block, if any. */
  function WithModname(info: int -> map<string, Value>, blocks: seq<BlockRow>, p: int): map<string, Value> {
    match LastModname(blocks, p)
    case None => info(p)
    case Some(m) => info(p)["modname" := m]
  }

  /** The inner loop of `modifypositionAction`: drops every block with id `p`
      from the remaining blocks, keeping the module name of the last one. */
  method TakePlacement(remaining: seq<BlockRow>, p: int, info: int -> map<string, Value>)
    returns (block: map<string, Value>, kept: seq<BlockRow>)
    ensures block == WithModname(info, remaining, p)
    ensures kept == Unplaced(remaining, [p])
  {
    block := info(p);
    kept := [];
    var j := 0;
    while j < |remaining|
      invariant 0 <= j <= |remaining|
      invariant kept == Unplaced(remaining[..j], [p])
      invariant block == WithModname(info, remaining[..j], p)
    {
      assert remaining[..j + 1][..j] == remaining[..j];
      if remaining[j].bid == p {
        block := block["modname" := remaining[j].modname];
      } else {
        kept := kept + [remaining[j]];
      }
      j := j + 1;
    }
    assert remaining[..j] == remaining;
  }

  /** The two loops of `modifypositionAction`: one placed entry per
      placement, in placement order, and the blocks no placement names. */
  method PartitionBlocks(placements: seq<int>, all: seq<BlockRow>, info: int -> map<string, Value>)
    returns (placed: seq<map<string, Value>>, unassigned: seq<BlockRow>)
    ensures |placed| == |placements|
    ensures forall i :: 0 <= i < |placements| ==> placed[i] == AssignedEntry(info, all, placements, i)
    ensures unassigned == Unplaced(all, placements)
  {
    placed := [];
    unassigned := all;
    UnplacedNothing(all);
    assert placements[..0] == [];
    var i := 0;
    while i < |placements|
      invariant 0 <= i <= |placements|
      invariant |placed| == i
      invariant forall k :: 0 <= k < i ==> placed[k] == AssignedEntry(info, all, placements, k)
      invariant unassigned == Unplaced(all, placements[..i])
    {
      var block, kept := TakePlacement(unassigned, placements[i], info);
      UnplacedStep(all, placements[..i], placements[i]);
      assert placements[..i + 1] == placements[..i] + [placements[i]];
      placed := placed + [block];
      unassigned := kept;
      i := i + 1;
    }
    assert placements[..i] == placements;
  }

  // ---------------------------------------------------------------------
  // updateconfigAction

  /** The stored `collapseable` setting: the posted value when it is set and
      numeric, 0 otherwise. Admin permission is required. */
  function CollapseableSetting(canAdmin: bool, post: map<string, Value>): (r: Result<Value>)
    ensures !canAdmin <==> r.Err?
    ensures r.Err? ==> r.failure == AccessDenied
    ensures r.Ok? ==> IsNumeric(r.value)
    ensures r.Ok? ==> (r.value == At(post, "collapseable") <==> IsNumeric(At(post, "collapseable")))
  {
    var c := Get(post, "collapseable", Null);
    if !canAdmin then Err(AccessDenied)
    else if c == Null || !IsNumeric(c) then Ok(Int(0))
    else Ok(c)
  }

  // ---------------------------------------------------------------------
  // deleteAction and deletepositionAction

  /** How a delete handler ends: the confirmation page, or the deletion. */
  datatype DeleteStep = AskConfirmation(id: Value) | Remove(id: Value)

  /** The block id of `deleteAction`: the query's, or the posted one when the
      query's casts to 0. */
  function DeleteBid(query: map<string, Value>, post: map<string, Value>): (bid: int)
    ensures IntCast(At(query, "bid")) != 0 ==> bid == IntCast(At(query, "bid"))
    ensures IntCast(At(query, "bid")) == 0 ==> bid == IntCast(At(post, "bid"))
  {
    var q := IntCast(Get(query, "bid", Null));
    if q == 0 then IntCast(Get(post, "bid", Null)) else q
  }

  /** A looked-up record that loosely equals false: none, or an empty array. */
  predicate Missing(item: Option<map<string, Value>>) {
    item.None? || item.value == map[]
  }

  /** `deleteAction`: the permission check (made on the looked-up block, with
      empty parts when there is none) comes before the not-found check; a
      found block is removed with a non-empty confirmation, and confirmation
      is asked otherwise. */
  function DeleteBlock(query: map<string, Value>, post: map<string, Value>,
                       lookup: int -> Option<map<string, Value>>,
                       permitted: Option<map<string, Value>> -> bool): (r: Result<DeleteStep>)
    ensures !permitted(lookup(DeleteBid(query, post))) ==> r == Err(AccessDenied)
    ensures permitted(lookup(DeleteBid(query, post))) && Missing(lookup(DeleteBid(query, post))) ==> r == Err(NotFound)
    ensures permitted(lookup(DeleteBid(query, post))) && !Missing(lookup(DeleteBid(query, post))) ==>
              var bid := Int(DeleteBid(query, post));
              r == Ok(if Truthy(At(post, "confirmation")) then Remove(bid) else AskConfirmation(bid))
  {
    var bid := DeleteBid(query, post);
    var block := lookup(bid);
    if !permitted(block) then Err(AccessDenied)
    else if Missing(block) then Err(NotFound)
    else if Empty(Get(post, "confirmation", Null)) then Ok(AskConfirmation(Int(bid)))
    else Ok(Remove(Int(bid)))
  }

  /** `(int)$bag->get($key, $default)`, where an undefined variable reads as
      null: the value a GET reads from the query and a POST from the body,
      falling back to the handler arguments. Other methods leave it
      undefined. */
  function ReadId(verb: RequestMethod, key: string, query: map<string, Value>, post: map<string, Value>,
                  args: map<string, Value>): (id: Value)
    ensures verb == HttpGet ==> id == Int(IntCast(At(query, key)))
    ensures verb == HttpPost ==> id == Int(IntCast(if key in post then post[key] else At(args, key)))
    ensures verb == HttpOther ==> id == Null
  {
    match verb
    case HttpGet => Int(IntCast(Get(query, key, Null)))
    case HttpPost => Int(IntCast(Get(post, key, if Isset(args, key) then args[key] else Null)))
    case HttpOther => Null
  }

  /** The position id of `deletepositionAction`: a non-empty `objectid`
      overrides `pid`. */
  function DeletePid(verb: RequestMethod, query: map<string, Value>, post: map<string, Value>,
                     args: map<string, Value>): (pid: Value)
    ensures Truthy(ReadId(verb, "objectid", query, post, args)) ==> pid == ReadId(verb, "objectid", query, post, args)
    ensures !Truthy(ReadId(verb, "objectid", query, post, args)) ==> pid == ReadId(verb, "pid", query, post, args)
  {
    var pid := ReadId(verb, "pid", query, post, args);
    var objectid := ReadId(verb, "objectid", query, post, args);
    if !Empty(objectid) then objectid else pid
  }

  /** `deletepositionAction`: here the not-found check comes first and the
      permission check second; a found, permitted position is removed with a
      non-empty posted confirmation, and confirmation is asked otherwise. */
  function DeletePosition(verb: RequestMethod, query: map<string, Value>, post: map<string, Value>,
                          args: map<string, Value>, lookup: Value -> Option<map<string, Value>>,
                          permitted: map<string, Value> -> bool): (r: Result<DeleteStep>)
    ensures Missing(lookup(DeletePid(verb, query, post, args))) ==> r == Err(NotFound)
    ensures var item := lookup(DeletePid(verb, query, post, args));
            !Missing(item) && !permitted(item.value) ==> r == Err(AccessDenied)
    ensures var item := lookup(DeletePid(verb, query, post, args));
            var pid := DeletePid(verb, query, post, args);
            !Missing(item) && permitted(item.value) ==>
              r == Ok(if Truthy(At(post, "confirmation")) then Remove(pid) else AskConfirmation(pid))
  {
    var pid := DeletePid(verb, query, post, args);
    var item := lookup(pid);
    if Missing(item) then Err(NotFound)
    else if !permitted(item.value) then Err(AccessDenied)
    else if Empty(Get(post, "confirmation", Null)) then Ok(AskConfirmation(pid))
    else Ok(Remove(pid))
  }
}
