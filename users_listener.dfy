/** The Users module's listener that empties its session namespace after a
    logout, or after an exception raised while the Users module was the one
    being run. The module name and the namespace are the Users module's
    constants, given here as parameters; the session is a map from namespace
    to its variables. */
module UsersListener {
  import opened Php

  const LogoutEvent := "user.logout.succeeded"
  const ExceptionEvent := "frontcontroller.exception"

  /** `$modinfo`: the event's `modinfo` argument, an empty array when the
      event has none. */
  function ModInfo(argument: Option<Value>): Value {
    if argument.Some? then argument.value else Table(map[])
  }

  predicate IsArray(v: Value) {
    v.List? || v.Table?
  }

  /** The guard as written: in the exception branch the module name is read
      from a `modinfo` whose `name` must NOT be set. An unset `name` reads as
      null, and null equals only "", so for a non-empty module name the
      guard holds for the logout event alone. */
  function DoClearAsWritten(eventName: string, argument: Option<Value>, modname: string): (clear: bool)
    ensures modname != "" ==> (clear <==> eventName == LogoutEvent)
  {
    LooseEqWordLiteral(LogoutEvent);
    var modinfo := ModInfo(argument);
    LooseEqStrings(eventName, LogoutEvent) ||
    (LooseEqStrings(eventName, ExceptionEvent) && modinfo != Null && IsArray(modinfo) && !Empty(modinfo) &&
     !Isset(Entries(modinfo), "name") && LooseEqStr(At(Entries(modinfo), "name"), modname))
  }

  /** The guard as evidently intended: the exception was raised while the
      module named in `modinfo` was the Users module. It holds exactly for a
      logout, or for an exception whose `modinfo` is a non-empty array with a
      set `name` loosely equal to the module name; any other event, and a
      missing or empty `modinfo`, never clears. */
  function DoClear(eventName: string, argument: Option<Value>, modname: string): (clear: bool)
    ensures clear <==>
              eventName == LogoutEvent ||
              (eventName == ExceptionEvent && argument.Some? && IsArray(argument.value) && !Empty(argument.value) &&
               Isset(Entries(argument.value), "name") && LooseEqStr(Entries(argument.value)["name"], modname))
  {
    LooseEqWordLiteral(LogoutEvent);
    LooseEqWordLiteral(ExceptionEvent);
    var modinfo := ModInfo(argument);
    LooseEqStrings(eventName, LogoutEvent) ||
    (LooseEqStrings(eventName, ExceptionEvent) && modinfo != Null && IsArray(modinfo) && !Empty(modinfo) &&
     Isset(Entries(modinfo), "name") && LooseEqStr(At(Entries(modinfo), "name"), modname))
  }

  /** The input that shows it: an exception inside the Users module. */
  lemma AsWrittenMissesUsersException(modname: string)
    requires modname != ""
    ensures !DoClearAsWritten(ExceptionEvent, Some(Table(map["name" := Str(modname)])), modname)
    ensures DoClear(ExceptionEvent, Some(Table(map["name" := Str(modname)])), modname)
  {
    LooseEqWordLiteral(LogoutEvent);
    LooseEqWordLiteral(ExceptionEvent);
    assert Entries(Table(map["name" := Str(modname)]))["name"] == Str(modname);
  }

  /** A logout always clears. */
  lemma LogoutClears(argument: Option<Value>, modname: string)
    ensures DoClear(LogoutEvent, argument, modname)
  {
  }

  type Session = map<string, map<string, Value>>

  /** `clearUsersNamespaceListener` with the intended guard `DoClear`: the
      session after the event. When the guard fires, the namespace is emptied
      and every other namespace is left as it was; otherwise nothing
      changes. */
  function ClearUsersNamespace(eventName: string, argument: Option<Value>, modname: string, namespace: string,
                               session: Session): (s: Session)
    ensures !DoClear(eventName, argument, modname) ==> s == session
    ensures DoClear(eventName, argument, modname) ==>
              namespace !in s && forall ns :: ns in session && ns != namespace ==> ns in s && s[ns] == session[ns]
    ensures forall ns :: ns in s ==> ns in session
  {
    if DoClear(eventName, argument, modname) then session - {namespace} else session
  }
}
