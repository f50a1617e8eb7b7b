/** The theme chooser page: every user theme except the current one, with its
    preview images, one page at a time. The theme registry, the file system
    check and the path sanitiser are inputs. */
module ThemeUser {
  import opened Php
  import opened Framework

  type Entity = map<string, Value>

  const DefaultPreview := "system/Zikula/Module/ThemeModule/Resources/public/images/preview_medium.png"
  const DefaultLarge := "system/Zikula/Module/ThemeModule/Resources/public/images/preview_large.png"

  /** The medium preview path inside a theme directory. */
  function ThemePic(dir: string): string {
    "themes/" + dir + "/Resources/public/images/preview_medium.png"
  }

  function ThemeLarge(dir: string): string {
    "themes/" + dir + "/Resources/public/images/preview_large.png"
  }

  /** The directory of a theme as the path sanitiser returns it. */
  function Dir(info: Entity, osPath: Value -> string): string {
    osPath(At(info, "directory"))
  }

  /** A theme with its two preview images. */
  function WithPreview(info: Entity, osPath: Value -> string, fileExists: string -> bool): Entity {
    var dir := Dir(info, osPath);
    if fileExists(ThemePic(dir)) then info["previewImage" := Str(ThemePic(dir))]["largeImage" := Str(ThemeLarge(dir))]
    else info["previewImage" := Str(DefaultPreview)]["largeImage" := Str(DefaultLarge)]
  }

  /** The images are the theme's own when its medium preview exists and the
      theme module's defaults otherwise; every other key keeps its value. */
  lemma PreviewFallback(info: Entity, osPath: Value -> string, fileExists: string -> bool)
    ensures var e := WithPreview(info, osPath, fileExists);
            && e.Keys == info.Keys + {"previewImage", "largeImage"}
            && (forall k :: k in info && k != "previewImage" && k != "largeImage" ==> e[k] == info[k])
            && (fileExists(ThemePic(Dir(info, osPath))) ==>
                  e["previewImage"] == Str(ThemePic(Dir(info, osPath))) && e["largeImage"] == Str(ThemeLarge(Dir(info, osPath))))
            && (!fileExists(ThemePic(Dir(info, osPath))) ==>
                  e["previewImage"] == Str(DefaultPreview) && e["largeImage"] == Str(DefaultLarge))
  {
  }

  // ---------------------------------------------------------------------
  // The previews array: keyed by theme name, in first-insertion order

  datatype Entry = Entry(key: string, theme: Entity)

  function Keys(ps: seq<Entry>): (ks: seq<string>)
    ensures |ks| == |ps| && forall i :: 0 <= i < |ps| ==> ks[i] == ps[i].key
  {
    seq(|ps|, i requires 0 <= i < |ps| => ps[i].key)
  }

  predicate DistinctKeys(ps: seq<Entry>) {
    var ks := Keys(ps);
    forall i, j :: 0 <= i < j < |ks| ==> ks[i] != ks[j]
  }

  /** `$a[$k] = $v` on an ordered array: an existing key keeps its place and
      takes the new value, a new key goes at the end. */
  function Put(ps: seq<Entry>, k: string, v: Entity): (r: seq<Entry>)
    ensures |r| == if k in Keys(ps) then |ps| else |ps| + 1
    decreases |ps|
  {
    if ps == [] then [Entry(k, v)]
    else if ps[0].key == k then [Entry(k, v)] + ps[1..]
    else [ps[0]] + Put(ps[1..], k, v)
  }

  /** Writing a key that is not there appends it; either way the entry
      written is there afterwards and no other new entry appears. */
  lemma {:induction false} PutSpec(ps: seq<Entry>, k: string, v: Entity)
    ensures var r := Put(ps, k, v);
            && (k !in Keys(ps) ==> r == ps + [Entry(k, v)])
            && Entry(k, v) in r
            && (forall e :: e in r ==> e in ps || e == Entry(k, v))
    decreases |ps|
  {
    if ps != [] {
      PutSpec(ps[1..], k, v);
      assert Keys(ps[1..]) == Keys(ps)[1..];
    }
  }

  /** The keys after a write: unchanged when the key was there, the key
      appended otherwise; so distinct keys stay distinct. */
  lemma {:induction false} PutKeys(ps: seq<Entry>, k: string, v: Entity)
    ensures Keys(Put(ps, k, v)) == if k in Keys(ps) then Keys(ps) else Keys(ps) + [k]
    ensures DistinctKeys(ps) ==> DistinctKeys(Put(ps, k, v))
    decreases |ps|
  {
    if ps != [] {
      PutKeys(ps[1..], k, v);
      assert Keys(ps[1..]) == Keys(ps)[1..];
      assert Keys(ps) == [ps[0].key] + Keys(ps[1..]);
      var r := Put(ps, k, v);
      if ps[0].key != k {
        assert Keys(r) == [ps[0].key] + Keys(Put(ps[1..], k, v));
      } else {
        assert Keys(r) == Keys(ps);
      }
    }
  }

  // ---------------------------------------------------------------------
  // The theme loop

  /** The theme carries the current theme's name (loose comparison). */
  predicate IsCurrent(info: Entity, currentName: Value) {
    LooseEq(At(info, "name"), currentName)
  }

  /** The same test as a function value; the loop functions below take the
      test as a parameter and hold for any test. */
  function CurrentTest(currentName: Value): Entity -> bool {
    info => IsCurrent(info, currentName)
  }

  /** Adding the preview images leaves the name, so a theme carries the
      current name exactly when its preview does. */
  lemma PreviewKeepsName(info: Entity, currentName: Value, osPath: Value -> string, fileExists: string -> bool)
    ensures At(WithPreview(info, osPath, fileExists), "name") == At(info, "name")
    ensures IsCurrent(WithPreview(info, osPath, fileExists), currentName) <==> IsCurrent(info, currentName)
  {
  }

  /** `$previewthemes` after the loop over the first themes. */
  function PreviewsOf(themes: seq<Entity>, current: Entity -> bool, osPath: Value -> string, fileExists: string -> bool)
    : seq<Entry>
    decreases |themes|
  {
    if themes == [] then []
    else
      var info := themes[|themes| - 1];
      var rest := PreviewsOf(themes[..|themes| - 1], current, osPath, fileExists);
      if current(info) then rest
      else match KeyOf(At(info, "name"))
        case None => rest
        case Some(k) => Put(rest, k, WithPreview(info, osPath, fileExists))
  }

  /** `$allthemes` after the loop: the themes that were not unset. */
  function Remaining(themes: seq<Entity>, current: Entity -> bool): (r: seq<Entity>)
    ensures |r| <= |themes|
    ensures forall info :: info in r ==> info in themes && !current(info)
    decreases |themes|
  {
    if themes == [] then []
    else
      var info := themes[|themes| - 1];
      Remaining(themes[..|themes| - 1], current) + (if current(info) then [] else [info])
  }

  /** `$currentthemepic` after the loop: the medium preview path inside the
      directory of the last theme carrying the current name, whether or not
      that file exists; null when no theme carries it. */
  function CurrentPic(themes: seq<Entity>, current: Entity -> bool, osPath: Value -> string): Value
    decreases |themes|
  {
    if themes == [] then Null
    else
      var info := themes[|themes| - 1];
      if current(info) then Str(ThemePic(Dir(info, osPath)))
      else CurrentPic(themes[..|themes| - 1], current, osPath)
  }

  /** The number of themes carrying the current name. */
  function CurrentCount(themes: seq<Entity>, current: Entity -> bool): nat
    decreases |themes|
  {
    if themes == [] then 0
    else CurrentCount(themes[..|themes| - 1], current) + (if current(themes[|themes| - 1]) then 1 else 0)
  }

  /** The loop over all themes. */
  method IndexThemes(themes: seq<Entity>, current: Entity -> bool, osPath: Value -> string, fileExists: string -> bool)
    returns (previews: seq<Entry>, currentPic: Value, allthemes: seq<Entity>)
    ensures previews == PreviewsOf(themes, current, osPath, fileExists)
    ensures currentPic == CurrentPic(themes, current, osPath)
    ensures allthemes == Remaining(themes, current)
  {
    previews, currentPic, allthemes := [], Null, [];
    var i := 0;
    while i < |themes|
      invariant 0 <= i <= |themes|
      invariant previews == PreviewsOf(themes[..i], current, osPath, fileExists)
      invariant currentPic == CurrentPic(themes[..i], current, osPath)
      invariant allthemes == Remaining(themes[..i], current)
    {
      assert themes[..i + 1][..i] == themes[..i];
      var themeinfo := themes[i];
      var themename := At(themeinfo, "name");
      var themepic := ThemePic(Dir(themeinfo, osPath));
      var withImages := WithPreview(themeinfo, osPath, fileExists);
      if current(themeinfo) {
        currentPic := Str(themepic);
      } else {
        allthemes := allthemes + [themeinfo];
        var key := KeyOf(themename);
        if key.Some? {
          previews := Put(previews, key.value, withImages);
        }
      }
      i := i + 1;
    }
    assert themes[..i] == themes;
  }

  /** Each preview is a theme that does not carry the current name, with its
      preview images, filed under that theme's name; no name is filed
      twice. */
  lemma {:induction false} PreviewsExcludeCurrent(themes: seq<Entity>, current: Entity -> bool, osPath: Value -> string,
                                                  fileExists: string -> bool)
    ensures var ps := PreviewsOf(themes, current, osPath, fileExists);
            DistinctKeys(ps) &&
            forall e :: e in ps ==>
              exists info :: info in themes && !current(info) && KeyOf(At(info, "name")) == Some(e.key) &&
                             e.theme == WithPreview(info, osPath, fileExists)
    decreases |themes|
  {
    if themes != [] {
      var front := themes[..|themes| - 1];
      PreviewsExcludeCurrent(front, current, osPath, fileExists);
      var info := themes[|themes| - 1];
      var rest := PreviewsOf(front, current, osPath, fileExists);
      var ps := PreviewsOf(themes, current, osPath, fileExists);
      assert forall i0 :: i0 in front ==> i0 in themes;
      if !current(info) && KeyOf(At(info, "name")).Some? {
        var k := KeyOf(At(info, "name")).value;
        var w := WithPreview(info, osPath, fileExists);
        PutSpec(rest, k, w);
        PutKeys(rest, k, w);
        forall e | e in ps
          ensures exists info :: info in themes && !current(info) && KeyOf(At(info, "name")) == Some(e.key) &&
                                 e.theme == WithPreview(info, osPath, fileExists)
        {
          if e in rest {
            var i0 :| i0 in front && !current(i0) && KeyOf(At(i0, "name")) == Some(e.key) &&
                      e.theme == WithPreview(i0, osPath, fileExists);
            assert i0 in themes;
          } else {
            assert e == Entry(k, w);
          }
        }
      }
    }
  }

  /** Every theme that does not carry the current name (and whose name is a
      legal key) has a preview under its name. */
  lemma {:induction false} PreviewsComplete(themes: seq<Entity>, current: Entity -> bool, osPath: Value -> string,
                                            fileExists: string -> bool, i: nat)
    requires i < |themes| && !current(themes[i]) && KeyOf(At(themes[i], "name")).Some?
    ensures KeyOf(At(themes[i], "name")).value in Keys(PreviewsOf(themes, current, osPath, fileExists))
    decreases |themes|
  {
    var n := |themes| - 1;
    var rest := PreviewsOf(themes[..n], current, osPath, fileExists);
    var ps := PreviewsOf(themes, current, osPath, fileExists);
    var info := themes[n];
    var key := KeyOf(At(info, "name"));
    if i < n {
      assert themes[..n][i] == themes[i];
      PreviewsComplete(themes[..n], current, osPath, fileExists, i);
      if !current(info) && key.Some? {
        PutKeys(rest, key.value, WithPreview(info, osPath, fileExists));
        assert ps == Put(rest, key.value, WithPreview(info, osPath, fileExists));
      } else {
        assert ps == rest;
      }
    } else {
      PutKeys(rest, key.value, WithPreview(info, osPath, fileExists));
      assert ps == Put(rest, key.value, WithPreview(info, osPath, fileExists));
    }
  }

  /** The pager count: all user themes but those carrying the current name,
      one fewer than all of them when exactly one does. */
  lemma {:induction false} NumItems(themes: seq<Entity>, current: Entity -> bool)
    ensures |Remaining(themes, current)| == |themes| - CurrentCount(themes, current)
    ensures CurrentCount(themes, current) == 0 <==> forall info :: info in themes ==> !current(info)
    decreases |themes|
  {
    if themes != [] {
      var front := themes[..|themes| - 1];
      NumItems(front, current);
      assert forall info :: info in themes ==> info in front || info == themes[|themes| - 1];
    }
  }

  /** The current picture is set exactly when some theme carries the current
      name, and it then points into that theme's directory. */
  lemma {:induction false} CurrentPicFound(themes: seq<Entity>, current: Entity -> bool, osPath: Value -> string)
    ensures CurrentPic(themes, current, osPath) != Null <==> exists info :: info in themes && current(info)
    ensures CurrentPic(themes, current, osPath) != Null ==>
              exists info :: info in themes && current(info) &&
                             CurrentPic(themes, current, osPath) == Str(ThemePic(Dir(info, osPath)))
    decreases |themes|
  {
    if themes != [] {
      var front := themes[..|themes| - 1];
      CurrentPicFound(front, current, osPath);
      assert forall info :: info in themes ==> info in front || info == themes[|themes| - 1];
      if CurrentPic(front, current, osPath) != Null {
        var i0 :| i0 in front && current(i0) && CurrentPic(front, current, osPath) == Str(ThemePic(Dir(i0, osPath)));
        assert i0 in themes;
      }
    }
  }

  // ---------------------------------------------------------------------
  // The page

  /** `$startnum - 1` as array_slice's offset: a string counts by its numeric
      prefix, a fraction is truncated; an array is a fatal error. */
  function StartOffset(startnum: Value): Option<int> {
    match startnum
    case Null => Some(-1)
    case Bool(b) => Some(if b then 0 else -1)
    case Int(i) => Some(i - 1)
    case Str(s) => Some(Trunc(StrToNumber(s) - 1.0))
    case List(_) => None
    case Table(_) => None
  }

  /** array_slice's length argument: null means "to the end". */
  function PageLength(itemsperpage: Value): Option<int> {
    if itemsperpage == Null then None else Some(IntCast(itemsperpage))
  }

  /** What the chooser template receives. */
  datatype ThemeChooser = ThemeChooser(
    currentthemepic: Value,
    currenttheme: Value,
    themes: seq<Entry>,
    numitems: nat,
    itemsperpage: Value)

  /** `indexAction`. */
  method Index(themeChange: Value, canComment: bool, query: Entity, itemsperpage: Value, currentTheme: Value,
               allThemes: seq<Entity>, osPath: Value -> string, fileExists: string -> bool)
    returns (r: Result<ThemeChooser>)
    ensures !Truthy(themeChange) ==> r == Err(Runtime)
    ensures Truthy(themeChange) && !canComment ==> r == Err(AccessDenied)
    ensures Truthy(themeChange) && canComment ==>
              var current := CurrentTest(At(Entries(currentTheme), "name"));
              var offset := StartOffset(Get(query, "startnum", Int(1)));
              if offset.None? then r == Err(Fatal)
              else
                && r.Ok?
                && r.value.themes == ArraySlice(PreviewsOf(allThemes, current, osPath, fileExists), offset.value, PageLength(itemsperpage))
                && r.value.numitems == |allThemes| - CurrentCount(allThemes, current)
                && r.value.currentthemepic == CurrentPic(allThemes, current, osPath)
                && r.value.currenttheme == currentTheme
                && r.value.itemsperpage == itemsperpage
  {
    if !Truthy(themeChange) {
      return Err(Runtime);
    }
    if !canComment {
      return Err(AccessDenied);
    }
    var startnum := Get(query, "startnum", Int(1));
    var current := CurrentTest(At(Entries(currentTheme), "name"));
    var previews, currentPic, remaining := IndexThemes(allThemes, current, osPath, fileExists);
    var offset := StartOffset(startnum);
    if offset.None? {
      return Err(Fatal);
    }
    NumItems(allThemes, current);
    var page := ArraySlice(previews, offset.value, PageLength(itemsperpage));
    r := Ok(ThemeChooser(currentPic, currentTheme, page, |remaining|, itemsperpage));
  }

  /** Without a `startnum` the first page holds the first `itemsperpage`
      previews. */
  lemma FirstPage(previews: seq<Entry>, n: nat)
    ensures StartOffset(Get(map[], "startnum", Int(1))) == Some(0)
    ensures ArraySlice(previews, 0, PageLength(Int(n))) == previews[..if n > |previews| then |previews| else n]
  {
  }
}
