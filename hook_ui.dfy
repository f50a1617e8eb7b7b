/** The hooks page of a module's administration: which event it answers,
    which subscriber and provider modules it offers for attachment, how many
    areas they bring, how the existing bindings are grouped and how areas are
    grouped by bundle category. The hook registry, the bundle metadata and
    the permission check are inputs. */
module HookUi {
  import opened Php
  import opened Framework

  // ---------------------------------------------------------------------
  // The guard

  /** `needle` occurs in `s` at index `i`. */
  predicate OccursAt(s: string, needle: string, i: nat) {
    i + |needle| <= |s| && s[i..i + |needle|] == needle
  }

  /** `strrpos` searching from index `i` down to 0. */
  function LastIndexFrom(s: string, needle: string, i: nat): (r: Option<nat>)
    ensures r.Some? ==> r.value <= i && OccursAt(s, needle, r.value)
    ensures r.Some? ==> forall k :: r.value < k <= i ==> !OccursAt(s, needle, k)
    ensures r.None? ==> forall k :: 0 <= k <= i ==> !OccursAt(s, needle, k)
    decreases i
  {
    if OccursAt(s, needle, i) then Some(i)
    else if i == 0 then None
    else LastIndexFrom(s, needle, i - 1)
  }

  /** `strrpos($s, $needle)`: the index of the last occurrence, None for
      false. */
  function LastIndexOf(s: string, needle: string): (r: Option<nat>)
    ensures r.Some? ==> OccursAt(s, needle, r.value)
    ensures r.Some? ==> forall k :: r.value < k ==> !OccursAt(s, needle, k)
    ensures r.None? ==> forall k :: !OccursAt(s, needle, k)
  {
    if |needle| > |s| then None else LastIndexFrom(s, needle, |s| - |needle|)
  }

  const LegacyAdmin := "_Controller_Admin"
  const NamespacedAdmin := "\\AdminController"

  /** `strrpos(...)` used as a condition: false, and also the index 0, are
      falsy. */
  predicate FoundPastStart(s: string, needle: string) {
    var r := LastIndexOf(s, needle);
    r.Some? && r.value != 0
  }

  /** The listener answers only the `hooks` method of an admin controller:
      one whose class name holds `_Controller_Admin` or `\AdminController`
      after its first character. */
  predicate Handles(method_: Value, className: string) {
    LooseEqStr(method_, "hooks") && (FoundPastStart(className, LegacyAdmin) || FoundPastStart(className, NamespacedAdmin))
  }

  /** Looking for the last occurrence loses nothing: a class name passes
      exactly when one of the two markers occurs at some index past 0. */
  lemma HandlesIff(method_: Value, className: string)
    ensures Handles(method_, className) <==>
              LooseEqStr(method_, "hooks") &&
              ((exists k :: 0 < k && OccursAt(className, LegacyAdmin, k)) ||
               (exists k :: 0 < k && OccursAt(className, NamespacedAdmin, k)))
  {
    FoundPastStartIff(className, LegacyAdmin);
    FoundPastStartIff(className, NamespacedAdmin);
  }

  lemma FoundPastStartIff(s: string, needle: string)
    ensures FoundPastStart(s, needle) <==> exists k :: 0 < k && OccursAt(s, needle, k)
  {
    var r := LastIndexOf(s, needle);
    if exists k :: 0 < k && OccursAt(s, needle, k) {
      var k :| 0 < k && OccursAt(s, needle, k);
      assert r.Some? && k <= r.value;
    }
  }

  // ---------------------------------------------------------------------
  // Grouping areas by category

  /** The areas whose category (for their owner) is `c`, in order. */
  function AreasIn(owner: string, areas: seq<string>, categoryOf: (string, string) -> string, c: string): seq<string>
    decreases |areas|
  {
    if areas == [] then []
    else
      var a := areas[|areas| - 1];
      AreasIn(owner, areas[..|areas| - 1], categoryOf, c) + (if categoryOf(owner, a) == c then [a] else [])
  }

  /** `$areasAndCategories[$category][] = $area` over all areas. */
  function ByCategory(owner: string, areas: seq<string>, categoryOf: (string, string) -> string)
    : map<string, seq<string>>
    decreases |areas|
  {
    if areas == [] then map[]
    else
      var a := areas[|areas| - 1];
      var g := ByCategory(owner, areas[..|areas| - 1], categoryOf);
      var c := categoryOf(owner, a);
      g[c := (if c in g then g[c] else []) + [a]]
  }

  /** Each category lists exactly its own areas, in area order, and only
      categories that have an area appear. */
  lemma {:induction false} ByCategoryContents(owner: string, areas: seq<string>, categoryOf: (string, string) -> string, c: string)
    ensures c in ByCategory(owner, areas, categoryOf) <==> AreasIn(owner, areas, categoryOf, c) != []
    ensures c in ByCategory(owner, areas, categoryOf) ==>
              ByCategory(owner, areas, categoryOf)[c] == AreasIn(owner, areas, categoryOf, c)
    decreases |areas|
  {
    if areas != [] {
      ByCategoryContents(owner, areas[..|areas| - 1], categoryOf, c);
    }
  }

  /** The grouping loop for one module's areas. */
  method GroupAreas(owner: string, areas: seq<string>, categoryOf: (string, string) -> string)
    returns (g: map<string, seq<string>>)
    ensures g == ByCategory(owner, areas, categoryOf)
  {
    g := map[];
    var i := 0;
    while i < |areas|
      invariant 0 <= i <= |areas|
      invariant g == ByCategory(owner, areas[..i], categoryOf)
    {
      assert areas[..i + 1][..i] == areas[..i];
      var c := categoryOf(owner, areas[i]);
      g := g[c := (if c in g then g[c] else []) + [areas[i]]];
      i := i + 1;
    }
    assert areas[..i] == areas;
  }

  // ---------------------------------------------------------------------
  // Filtering candidates

  /** A module offered for attachment: its position in the registry's list,
      its name, its areas and (for providers) its areas by category. */
  datatype Candidate = Candidate(index: nat, name: string, areas: seq<string>, areasAndCategories: map<string, seq<string>>)

  /** Why a registry entry is unset: it is the current module (when self
      exclusion applies) or the user lacks admin permission on it. */
  predicate Dropped(name: string, moduleName: string, excludeSelf: bool, permitted: string -> bool) {
    (excludeSelf && LooseEqStrings(name, moduleName)) || !permitted(name)
  }

  /** What is left of the registry's list after the loop. */
  function KeptCandidates(names: seq<string>, moduleName: string, excludeSelf: bool, permitted: string -> bool,
                          areasOf: string -> seq<string>, categoryOf: (string, string) -> string, group: bool)
    : (kept: seq<Candidate>)
    ensures |kept| <= |names|
    ensures forall k :: 0 <= k < |kept| ==> kept[k].index < |names|
    decreases |names|
  {
    if names == [] then []
    else
      var n := |names| - 1;
      var rest := KeptCandidates(names[..n], moduleName, excludeSelf, permitted, areasOf, categoryOf, group);
      if Dropped(names[n], moduleName, excludeSelf, permitted) then rest
      else
        var areas := areasOf(names[n]);
        rest + [Candidate(n, names[n], areas, if group then ByCategory(names[n], areas, categoryOf) else map[])]
  }

  /** The number of areas the kept candidates bring. */
  function AreaTotal(cs: seq<Candidate>): nat
    decreases |cs|
  {
    if cs == [] then 0 else AreaTotal(cs[..|cs| - 1]) + |cs[|cs| - 1].areas|
  }

  lemma AreaTotalAppend(cs: seq<Candidate>, c: Candidate)
    ensures AreaTotal(cs + [c]) == AreaTotal(cs) + |c.areas|
  {
    assert (cs + [c])[..|cs|] == cs;
  }

  /** The candidates' registry positions increase. */
  predicate InRegistryOrder(cs: seq<Candidate>) {
    forall k :: 0 < k < |cs| ==> cs[k - 1].index < cs[k].index
  }

  /** Every kept candidate stands for a registry entry that is not dropped,
      with that entry's areas, and the candidates keep the registry's order. */
  lemma {:induction false} KeptSound(names: seq<string>, moduleName: string, excludeSelf: bool, permitted: string -> bool,
                                     areasOf: string -> seq<string>, categoryOf: (string, string) -> string, group: bool)
    ensures forall c :: c in KeptCandidates(names, moduleName, excludeSelf, permitted, areasOf, categoryOf, group) ==>
              c.name == names[c.index] && !Dropped(c.name, moduleName, excludeSelf, permitted) && c.areas == areasOf(c.name)
    ensures InRegistryOrder(KeptCandidates(names, moduleName, excludeSelf, permitted, areasOf, categoryOf, group))
    decreases |names|
  {
    if names != [] {
      var n := |names| - 1;
      KeptSound(names[..n], moduleName, excludeSelf, permitted, areasOf, categoryOf, group);
      var rest := KeptCandidates(names[..n], moduleName, excludeSelf, permitted, areasOf, categoryOf, group);
      var kept := KeptCandidates(names, moduleName, excludeSelf, permitted, areasOf, categoryOf, group);
      assert forall c :: c in rest ==> names[..n][c.index] == names[c.index];
      if !Dropped(names[n], moduleName, excludeSelf, permitted) {
        assert forall k :: 0 <= k < |rest| ==> kept[k] == rest[k];
        assert InRegistryOrder(rest);
        if |rest| > 0 {
          assert rest[|rest| - 1].index < n;
        }
      }
    }
  }

  /** Every registry entry that is not dropped is kept. */
  lemma {:induction false} KeptComplete(names: seq<string>, moduleName: string, excludeSelf: bool, permitted: string -> bool,
                                        areasOf: string -> seq<string>, categoryOf: (string, string) -> string, group: bool, i: nat)
    requires i < |names| && !Dropped(names[i], moduleName, excludeSelf, permitted)
    ensures exists c :: c in KeptCandidates(names, moduleName, excludeSelf, permitted, areasOf, categoryOf, group) && c.index == i
    decreases |names|
  {
    var n := |names| - 1;
    var rest := KeptCandidates(names[..n], moduleName, excludeSelf, permitted, areasOf, categoryOf, group);
    var kept := KeptCandidates(names, moduleName, excludeSelf, permitted, areasOf, categoryOf, group);
    assert forall c :: c in rest ==> c in kept;
    if i < n {
      KeptComplete(names[..n], moduleName, excludeSelf, permitted, areasOf, categoryOf, group, i);
    } else {
      var areas := areasOf(names[n]);
      var c := Candidate(n, names[n], areas, if group then ByCategory(names[n], areas, categoryOf) else map[]);
      assert kept == rest + [c];
      assert c in kept;
    }
  }

  /** One of the two candidate loops: entries that are dropped are unset,
      the others get their areas (and, for providers, their areas by
      category), and the total counts the areas of the kept ones only. */
  method FilterCandidates(names: seq<string>, moduleName: string, excludeSelf: bool, permitted: string -> bool,
                          areasOf: string -> seq<string>, categoryOf: (string, string) -> string, group: bool)
    returns (kept: seq<Candidate>, total: nat)
    ensures kept == KeptCandidates(names, moduleName, excludeSelf, permitted, areasOf, categoryOf, group)
    ensures total == AreaTotal(kept)
  {
    kept := [];
    total := 0;
    var i := 0;
    while i < |names|
      invariant 0 <= i <= |names|
      invariant kept == KeptCandidates(names[..i], moduleName, excludeSelf, permitted, areasOf, categoryOf, group)
      invariant total == AreaTotal(kept)
    {
      assert names[..i + 1][..i] == names[..i];
      var name := names[i];
      if !Dropped(name, moduleName, excludeSelf, permitted) {
        var areas := areasOf(name);
        var grouped := map[];
        if group {
          grouped := GroupAreas(name, areas, categoryOf);
        }
        AreaTotalAppend(kept, Candidate(i, name, areas, grouped));
        kept := kept + [Candidate(i, name, areas, grouped)];
        total := total + |areas|;
      }
      i := i + 1;
    }
    assert names[..i] == names;
  }

  // ---------------------------------------------------------------------
  // Grouping bindings

  /** A binding of a provider area to a subscriber area, as the registry
      returns it for the subscriber area. */
  datatype Binding = Binding(areaname: string, category: string)

  /** One `array_push($currentSorting[$category][$subscriberArea], $areaname)`. */
  datatype Attachment = Attachment(category: string, subscriberArea: string, providerArea: string)

  function AttachmentsOf(subscriberArea: string, bs: seq<Binding>): (r: seq<Attachment>)
    ensures |r| == |bs|
    ensures forall k :: 0 <= k < |bs| ==> r[k] == Attachment(bs[k].category, subscriberArea, bs[k].areaname)
  {
    seq(|bs|, k requires 0 <= k < |bs| => Attachment(bs[k].category, subscriberArea, bs[k].areaname))
  }

  /** The pushes of the binding loop, in the order it makes them. */
  function AllAttachments(subscriberAreas: seq<string>, bindingsFor: string -> seq<Binding>): seq<Attachment>
    decreases |subscriberAreas|
  {
    if subscriberAreas == [] then []
    else
      var a := subscriberAreas[|subscriberAreas| - 1];
      AllAttachments(subscriberAreas[..|subscriberAreas| - 1], bindingsFor) + AttachmentsOf(a, bindingsFor(a))
  }

  type Sorting = map<string, map<string, seq<string>>>

  /** One push, creating the category and subscriber-area entries first when
      they are not set. */
  function Push(s: Sorting, t: Attachment): Sorting {
    var inner := if t.category in s then s[t.category] else map[];
    var list := if t.subscriberArea in inner then inner[t.subscriberArea] else [];
    s[t.category := inner[t.subscriberArea := list + [t.providerArea]]]
  }

  function SortingOf(ts: seq<Attachment>): Sorting
    decreases |ts|
  {
    if ts == [] then map[] else Push(SortingOf(ts[..|ts| - 1]), ts[|ts| - 1])
  }

  /** The provider areas pushed for a category and subscriber area, in
      order. */
  function ProvidersFor(ts: seq<Attachment>, c: string, a: string): seq<string>
    decreases |ts|
  {
    if ts == [] then []
    else
      var t := ts[|ts| - 1];
      ProvidersFor(ts[..|ts| - 1], c, a) + (if t.category == c && t.subscriberArea == a then [t.providerArea] else [])
  }

  /** `currentSorting[c][a]` lists exactly the bindings of subscriber area
      `a` in category `c`, in order; an empty entry never appears. */
  lemma {:induction false} SortingContents(ts: seq<Attachment>, c: string, a: string)
    ensures (c in SortingOf(ts) && a in SortingOf(ts)[c]) <==> ProvidersFor(ts, c, a) != []
    ensures c in SortingOf(ts) && a in SortingOf(ts)[c] ==> SortingOf(ts)[c][a] == ProvidersFor(ts, c, a)
    ensures c in SortingOf(ts) ==> SortingOf(ts)[c] != map[]
    decreases |ts|
  {
    if ts != [] {
      SortingContents(ts[..|ts| - 1], c, a);
      var t := ts[|ts| - 1];
      if c in SortingOf(ts[..|ts| - 1]) && t.category != c {
        var a' :| a' in SortingOf(ts[..|ts| - 1])[c];
        SortingContents(ts[..|ts| - 1], c, a');
      }
    }
  }

  /** The inner binding loop, for one subscriber area. */
  method PushBindings(sorting: Sorting, ghost before: seq<Attachment>, area: string, bs: seq<Binding>)
    returns (sorting': Sorting)
    requires sorting == SortingOf(before)
    ensures sorting' == SortingOf(before + AttachmentsOf(area, bs))
  {
    sorting' := sorting;
    assert before + AttachmentsOf(area, bs[..0]) == before;
    var j := 0;
    while j < |bs|
      invariant 0 <= j <= |bs|
      invariant sorting' == SortingOf(before + AttachmentsOf(area, bs[..j]))
    {
      var t := Attachment(bs[j].category, area, bs[j].areaname);
      assert before + AttachmentsOf(area, bs[..j + 1]) == (before + AttachmentsOf(area, bs[..j])) + [t];
      sorting' := Push(sorting', t);
      j := j + 1;
    }
    assert bs[..j] == bs;
  }

  /** The binding loop: every binding of every subscriber area is pushed
      under its category and subscriber area, and counted. */
  method GroupBindings(subscriberAreas: seq<string>, bindingsFor: string -> seq<Binding>)
    returns (sorting: Sorting, total: nat)
    ensures sorting == SortingOf(AllAttachments(subscriberAreas, bindingsFor))
    ensures total == |AllAttachments(subscriberAreas, bindingsFor)|
  {
    sorting := map[];
    total := 0;
    var i := 0;
    while i < |subscriberAreas|
      invariant 0 <= i <= |subscriberAreas|
      invariant sorting == SortingOf(AllAttachments(subscriberAreas[..i], bindingsFor))
      invariant total == |AllAttachments(subscriberAreas[..i], bindingsFor)|
    {
      var area := subscriberAreas[i];
      var bs := bindingsFor(area);
      sorting := PushBindings(sorting, AllAttachments(subscriberAreas[..i], bindingsFor), area, bs);
      total := total + |bs|;
      assert subscriberAreas[..i + 1][..i] == subscriberAreas[..i];
      i := i + 1;
    }
    assert subscriberAreas[..i] == subscriberAreas;
  }

  /** The number of attached provider areas is the number of bindings over
      all subscriber areas. */
  lemma {:induction false} AttachedTotal(subscriberAreas: seq<string>, bindingsFor: string -> seq<Binding>)
    ensures |AllAttachments(subscriberAreas, bindingsFor)| == BindingCount(subscriberAreas, bindingsFor)
    decreases |subscriberAreas|
  {
    if subscriberAreas != [] {
      AttachedTotal(subscriberAreas[..|subscriberAreas| - 1], bindingsFor);
    }
  }

  function BindingCount(subscriberAreas: seq<string>, bindingsFor: string -> seq<Binding>): nat
    decreases |subscriberAreas|
  {
    if subscriberAreas == [] then 0
    else BindingCount(subscriberAreas[..|subscriberAreas| - 1], bindingsFor) + |bindingsFor(subscriberAreas[|subscriberAreas| - 1])|
  }

  // ---------------------------------------------------------------------
  // The handler

  /** What the handler learns from the framework: the current module, the
      permission check on a module, its capabilities and areas, the
      registry's subscriber and provider lists, and the bundle metadata. */
  datatype HookEnv = HookEnv(
    moduleName: string,
    canAdmin: string -> bool,
    isProvider: bool,
    isSubscriber: bool,
    isSubscriberSelfCapable: bool,
    providerAreas: seq<string>,
    subscriberAreas: seq<string>,
    subscriberCategory: (string, string) -> string,
    providerCategory: (string, string) -> string,
    subscribers: seq<string>,
    providers: seq<string>,
    subscriberAreasOf: string -> seq<string>,
    providerAreasOf: string -> seq<string>,
    bindingsFor: string -> seq<Binding>)

  /** The variables the hooks page is rendered with; None where the handler
      leaves a variable unassigned. */
  datatype HooksView = HooksView(
    subscriberAreasAndCategories: Option<map<string, seq<string>>>,
    hooksubscribers: Option<seq<Candidate>>,
    totalAvailableSubscriberAreas: nat,
    areasSorting: Option<Sorting>,
    totalAttachedProviderAreas: Option<nat>,
    hookproviders: seq<Candidate>,
    totalAvailableProviderAreas: Option<nat>)

  datatype HookOutcome = NotHandled | Rendered(view: HooksView)

  /** The `hooks` listener. */
  method Hooks(method_: Value, className: string, env: HookEnv) returns (r: Result<HookOutcome>)
    ensures !Handles(method_, className) ==> r == Ok(NotHandled)
    ensures Handles(method_, className) && !env.canAdmin(env.moduleName) ==> r == Err(AccessDenied)
    ensures Handles(method_, className) && env.canAdmin(env.moduleName) ==> r.Ok? && r.value.Rendered?
    ensures r.Ok? && r.value.Rendered? ==>
              var v := r.value.view;
              var offersSubscribers := env.isProvider && env.providerAreas != [];
              var offersProviders := env.isSubscriber && env.subscriberAreas != [];
              && (v.subscriberAreasAndCategories.Some? <==> env.isSubscriber)
              && (env.isSubscriber ==>
                    v.subscriberAreasAndCategories.value == ByCategory(env.moduleName, env.subscriberAreas, env.subscriberCategory))
              && (v.hooksubscribers.Some? <==> offersSubscribers)
              && (offersSubscribers ==>
                    v.hooksubscribers.value ==
                      KeptCandidates(env.subscribers, env.moduleName, true, env.canAdmin, env.subscriberAreasOf, env.subscriberCategory, false))
              && v.totalAvailableSubscriberAreas == (if offersSubscribers then AreaTotal(v.hooksubscribers.value) else 0)
              && (v.areasSorting.Some? <==> offersProviders)
              && (offersProviders ==>
                    v.areasSorting.value == SortingOf(AllAttachments(env.subscriberAreas, env.bindingsFor)) &&
                    v.totalAttachedProviderAreas == Some(|AllAttachments(env.subscriberAreas, env.bindingsFor)|))
              && v.hookproviders ==
                   (if offersProviders
                    then KeptCandidates(env.providers, env.moduleName, !env.isSubscriberSelfCapable, env.canAdmin,
                                        env.providerAreasOf, env.providerCategory, true)
                    else [])
              && (v.totalAvailableProviderAreas.Some? <==> offersProviders)
              && (offersProviders ==> v.totalAvailableProviderAreas.value == AreaTotal(v.hookproviders))
  {
    if !Handles(method_, className) {
      return Ok(NotHandled);
    }
    if !env.canAdmin(env.moduleName) {
      return Err(AccessDenied);
    }
    var byCategory := None;
    if env.isSubscriber {
      var g := GroupAreas(env.moduleName, env.subscriberAreas, env.subscriberCategory);
      byCategory := Some(g);
    }
    var hooksubscribers := None;
    var totalSubscriberAreas := 0;
    if env.isProvider && env.providerAreas != [] {
      var kept, total := FilterCandidates(env.subscribers, env.moduleName, true, env.canAdmin,
                                          env.subscriberAreasOf, env.subscriberCategory, false);
      hooksubscribers := Some(kept);
      totalSubscriberAreas := total;
    }
    var sorting := None;
    var attached := None;
    var hookproviders := [];
    var totalProviderAreas := None;
    if env.isSubscriber && env.subscriberAreas != [] {
      var s, n := GroupBindings(env.subscriberAreas, env.bindingsFor);
      sorting, attached := Some(s), Some(n);
      var kept, total := FilterCandidates(env.providers, env.moduleName, !env.isSubscriberSelfCapable, env.canAdmin,
                                          env.providerAreasOf, env.providerCategory, true);
      hookproviders := kept;
      totalProviderAreas := Some(total);
    }
    r := Ok(Rendered(HooksView(byCategory, hooksubscribers, totalSubscriberAreas, sorting, attached,
                               hookproviders, totalProviderAreas)));
  }

  /** The current module never appears among the subscribers offered, and
      appears among the providers only when it may subscribe to itself. */
  lemma SelfExclusion(env: HookEnv)
    ensures forall c :: c in KeptCandidates(env.subscribers, env.moduleName, true, env.canAdmin,
                                            env.subscriberAreasOf, env.subscriberCategory, false)
              ==> !LooseEqStrings(c.name, env.moduleName) && env.canAdmin(c.name)
    ensures forall c :: c in KeptCandidates(env.providers, env.moduleName, !env.isSubscriberSelfCapable, env.canAdmin,
                                            env.providerAreasOf, env.providerCategory, true)
              ==> (LooseEqStrings(c.name, env.moduleName) ==> env.isSubscriberSelfCapable) && env.canAdmin(c.name)
  {
    KeptSound(env.subscribers, env.moduleName, true, env.canAdmin, env.subscriberAreasOf, env.subscriberCategory, false);
    KeptSound(env.providers, env.moduleName, !env.isSubscriberSelfCapable, env.canAdmin,
              env.providerAreasOf, env.providerCategory, true);
  }
}
