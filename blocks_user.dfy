/** The blocks module's user controller: showing one block on its own page
    and toggling a user's collapsed state of a block. The block registry and
    the permission check are inputs; the user block record is an object
    whose `active` field the toggle updates. */
module BlocksUser {
  import opened Php
  import opened Framework

  type Entity = map<string, Value>

  /** `mainAction`: this module has no main page. */
  function MainAction(): (r: Result<Entity>)
    ensures r.Err? && r.failure == NotFound
  {
    Err(NotFound)
  }

  // ---------------------------------------------------------------------
  // displayAction

  /** An integer request parameter: the query's value cast to int; when that
      is 0, the posted value cast to int, where a missing post value falls
      back to the argument array (when set there) and then to null. */
  function RequestInt(query: Entity, post: Entity, args: Entity, key: string): int {
    var fromQuery := IntCast(Get(query, key, Null));
    if fromQuery != 0 then fromQuery
    else IntCast(Get(post, key, if Isset(args, key) then args[key] else Null))
  }

  /** Each source is consulted only when the ones before it give 0 or are
      absent. */
  lemma RequestFallback(query: Entity, post: Entity, args: Entity, key: string)
    ensures key in query && IntCast(query[key]) != 0 ==> RequestInt(query, post, args, key) == IntCast(query[key])
    ensures (key !in query || IntCast(query[key]) == 0) && key in post ==>
              RequestInt(query, post, args, key) == IntCast(post[key])
    ensures (key !in query || IntCast(query[key]) == 0) && key !in post && Isset(args, key) ==>
              RequestInt(query, post, args, key) == IntCast(args[key])
    ensures (key !in query || IntCast(query[key]) == 0) && key !in post && !Isset(args, key) ==>
              RequestInt(query, post, args, key) == 0
  {
  }

  /** What the display action returns: the block template (with the
      arguments and the block id) or the empty string. */
  datatype Display = ShowBlock(args: Entity, bid: int) | Blank

  /** `displayAction($args)`. `blockInfo` is the registry's record of a block
      (false or null when there is none). */
  function DisplayAction(query: Entity, post: Entity, args: Entity, canEdit: bool, blockInfo: int -> Value)
    : (r: Result<Display>)
    ensures var bid := RequestInt(query, post, args, "bid");
            var showinactive := RequestInt(query, post, args, "showinactive");
            && (r.Err? <==> showinactive != 0 && !canEdit)
            && (r.Err? ==> r.failure == AccessDenied)
            && (r.Ok? && r.value.ShowBlock? <==>
                  r.Ok? && bid > 0 && (Truthy(At(Entries(blockInfo(bid)), "active")) || showinactive != 0))
            && (r.Ok? && r.value.ShowBlock? ==> r.value.args == args && r.value.bid == bid)
  {
    var bid := RequestInt(query, post, args, "bid");
    var showinactive := RequestInt(query, post, args, "showinactive");
    if showinactive != 0 && !canEdit then Err(AccessDenied)
    else if bid > 0 && (Truthy(At(Entries(blockInfo(bid)), "active")) || showinactive != 0) then Ok(ShowBlock(args, bid))
    else Ok(Blank)
  }

  /** An inactive block is shown only to an editor who asks for it. */
  lemma InactiveNeedsEditor(query: Entity, post: Entity, args: Entity, canEdit: bool, blockInfo: int -> Value)
    requires DisplayAction(query, post, args, canEdit, blockInfo) == Ok(ShowBlock(args, RequestInt(query, post, args, "bid")))
    requires !Truthy(At(Entries(blockInfo(RequestInt(query, post, args, "bid"))), "active"))
    ensures canEdit && RequestInt(query, post, args, "showinactive") != 0
  {
  }

  // ---------------------------------------------------------------------
  // changestatusAction

  /** The toggled collapsed state: 0 when it was (loosely) 1, 1 otherwise. */
  function Toggled(active: Value): (r: Value)
    ensures r == Int(0) || r == Int(1)
    ensures r == Int(0) <==> LooseEqInt(active, 1)
  {
    if LooseEqInt(active, 1) then Int(0) else Int(1)
  }

  /** Toggling twice gives the value back exactly when it was 0 or 1; after
      one toggle, any further pair of toggles changes nothing. */
  lemma ToggleTwice(active: Value)
    ensures Toggled(Toggled(active)) == active <==> active == Int(0) || active == Int(1)
    ensures Toggled(Toggled(Toggled(active))) == Toggled(active)
  {
  }

  /** A user's record for one block. */
  class UserBlockEntity {
    const uid: Value
    const bid: Value
    var active: Value

    constructor (uid: Value, bid: Value, active: Value)
      ensures this.uid == uid && this.bid == bid && this.active == active
    {
      this.uid, this.bid, this.active := uid, bid, active;
    }

    /** The toggle, as applied to the record found. */
    method ChangeStatus()
      modifies this`active
      ensures active == Toggled(old(active))
    {
      if LooseEqInt(active, 1) {
        active := Int(0);
      } else {
        active := Int(1);
      }
    }
  }

  /** `changestatusAction`: the record of the current user and the block is
      toggled; when there is none, nothing is stored. */
  method ChangeStatusAction(item: UserBlockEntity?)
    modifies item
    ensures item != null ==> item.active == Toggled(old(item.active))
  {
    if item != null {
      item.ChangeStatus();
    }
  }
}
