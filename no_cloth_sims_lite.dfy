/**
 * The logic of the "No Cloth Sims Lite" add-on: decoding a clip's name and
 * frame range from its Alembic object path, installing the looping driver
 * those bounds call for, and finding the selected mesh the add-on supports.
 */
module NoClothSimsLite {
  import opened PyText
  import opened LoopExpression
  import opened Catalog
  import opened Host
  import opened LoopDriver

  // ---------------------------------------------------------------------
  // Supported meshes

  const TieLibraries: seq<Library> := [
    Library("A:\\mav\\2023\\sandbox\\studio2\\s223\\departments\\fx\\cloth_library\\gary_dimension_ties.abc",
            "Dimension Ties", "", "ASSET_MANAGER", 0),
    Library("A:\\mav\\2023\\sandbox\\studio2\\s223\\departments\\fx\\cloth_library\\gary_dimension_ties_v2.abc",
            "John Pork Signature Collection", "", "MONKEY", 1)
  ]

  const Tie: Entry := map["mesh" := Text("tie"), "libs" := Libraries(TieLibraries)]

  /** The add-on's `supported` table. */
  const Supported: seq<Entry> := [Tie]

  /**
   * `check_supported_fuzzy`: only the key `mesh` holds a string, so every
   * other key raises `TypeError`; with `mesh`, a name containing `tie`
   * finds the tie entry.
   */
  function CheckSupportedFuzzy(name: string, key: string): (r: Lookup)
    ensures r == if key != "mesh" then TypeError
                 else if Contains(name, "tie") then Found(Tie) else NotFound
  {
    FuzzySearch(Supported, name, key)
  }

  /** `check_supported_exact`: only the exact name `tie` under the key `mesh` finds an entry. */
  function CheckSupportedExact(name: string, key: string): (r: Lookup)
    ensures r == if key == "mesh" && name == "tie" then Found(Tie) else NotFound
  {
    ExactSearch(Supported, name, key)
  }

  // ---------------------------------------------------------------------
  // Finding the object to animate

  /** What `find_first_object` returns: `(obj, data)`, `(None, None)`, or a raised error. */
  datatype ObjectMatch = Match(obj: SceneObject, data: Entry) | NoMatch | Raised

  /** An object the search goes past: not a mesh, or a mesh whose name the table does not support. */
  predicate PassedOver(obj: SceneObject) {
    !obj.isMesh || CheckSupportedFuzzy(obj.name, "mesh").NotFound?
  }

  /**
   * The inner loop over `children_recursive`: non-meshes are skipped, the
   * first supported mesh is returned.
   */
  function SearchMeshes(objs: seq<SceneObject>): (r: ObjectMatch)
    ensures !r.Raised?
    ensures r.NoMatch? <==> forall k :: 0 <= k < |objs| ==> PassedOver(objs[k])
    ensures r.Match? ==>
      exists k :: && 0 <= k < |objs| && objs[k] == r.obj && r.obj.isMesh
                  && CheckSupportedFuzzy(r.obj.name, "mesh") == Found(r.data)
                  && (forall j :: 0 <= j < k ==> PassedOver(objs[j]))
  {
    if objs == [] then NoMatch
    else if !objs[0].isMesh then SearchMeshes(objs[1..])
    else match CheckSupportedFuzzy(objs[0].name, "mesh")
      case Found(data) => Match(objs[0], data)
      case TypeError => Raised
      case NotFound => SearchMeshes(objs[1..])
  }

  /**
   * `find_first_object`: for each selected object, the object itself if it
   * is a supported mesh, else the first supported mesh among its
   * recursive children.
   */
  function FindFirstObject(selected: seq<SceneObject>): ObjectMatch
  {
    if selected == [] then NoMatch
    else
      var obj := selected[0];
      var own := if obj.isMesh then CheckSupportedFuzzy(obj.name, "mesh") else NotFound;
      if own.Found? then Match(obj, own.entry)
      else if own.TypeError? then Raised
      else
        match SearchMeshes(ChildrenRecursive(obj))
        case NoMatch => FindFirstObject(selected[1..])
        case found => found
  }

  /** Searching a concatenation searches the first part, then the second. */
  lemma {:induction false} SearchMeshesAppend(a: seq<SceneObject>, b: seq<SceneObject>)
    ensures SearchMeshes(a + b) == if SearchMeshes(a).NoMatch? then SearchMeshes(b) else SearchMeshes(a)
    decreases |a|
  {
    if a != [] {
      assert (a + b)[1..] == a[1..] + b;
      SearchMeshesAppend(a[1..], b);
    } else {
      assert a + b == b;
    }
  }

  /**
   * `find_first_object` is a search for the first supported mesh among the
   * selected objects and their descendants: each selected object is looked
   * at before its children, and its whole subtree before the next selected
   * object.
   */
  lemma {:induction false} FindFirstObjectInVisitOrder(selected: seq<SceneObject>)
    ensures FindFirstObject(selected) == SearchMeshes(DescendantsOf(selected))
    decreases |selected|
  {
    if selected != [] {
      var obj := selected[0];
      var kids := ChildrenRecursive(obj);
      FindFirstObjectInVisitOrder(selected[1..]);
      assert DescendantsOf(selected) == [obj] + kids + DescendantsOf(selected[1..]);
      SearchMeshesAppend([obj], kids);
      SearchMeshesAppend([obj] + kids, DescendantsOf(selected[1..]));
      assert [obj][1..] == [];
    }
  }

  /** The search never raises with this table, and what it finds is a mesh whose name contains `tie`. */
  lemma FindFirstObjectFindsTie(selected: seq<SceneObject>)
    ensures !FindFirstObject(selected).Raised?
    ensures FindFirstObject(selected).Match? ==>
      && FindFirstObject(selected).obj.isMesh
      && Contains(FindFirstObject(selected).obj.name, "tie")
      && FindFirstObject(selected).data == Tie
  {
    FindFirstObjectInVisitOrder(selected);
  }

  // ---------------------------------------------------------------------
  // Clip paths

  /** `(name, start_frame, end_frame)` as `parse_path` returns it. */
  datatype Clip = Clip(name: string, startFrame: int, endFrame: int)

  /** `try: v = int(s) except: pass` with `v` starting at 0. */
  function IntOrZero(s: string): int
    requires '_' !in s
  {
    ParseInt(s).GetOr(0)
  }

  /** `anim.replace("_", " ").strip().title()`. */
  function DisplayName(anim: string): string
  {
    Title(Strip(ReplaceChar(anim, '_', ' ')))
  }

  /** The frame suffixes and display name decoded from the last path segment. */
  function DecodeLeaf(anim: string): Clip
  {
    var underscore := RFind(anim, '_');
    if underscore >= 0 then
      RFindSuffixFree(anim, '_');
      var endFrame := IntOrZero(anim[underscore + 1..]);
      var head := anim[..underscore];
      var underscore2 := RFind(head, '_');
      if underscore2 >= 0 then
        RFindSuffixFree(head, '_');
        Clip(DisplayName(head[..underscore2]), IntOrZero(head[underscore2 + 1..]), endFrame)
      else
        Clip(DisplayName(head), 0, endFrame)
    else
      Clip(DisplayName(anim), 0, 0)
  }

  /** `parse_path`: an empty path decodes to `("", 0, 0)`; otherwise the last segment is decoded. */
  function ParsePath(path: string): Clip
  {
    if path == [] then Clip("", 0, 0) else DecodeLeaf(LastSegment(path))
  }

  /**
   * `parts[-1]` of `path.split("/")` once one leading `/` is dropped: the
   * text after the last `/`, so the leading `/` never matters.
   */
  function LastSegment(path: string): (leaf: string)
    requires path != []
    ensures leaf == path[RFind(path, '/') + 1..]
  {
    var stripped := if path[0] == '/' then path[1..] else path;
    var parts := Split(stripped, '/');
    if path[0] == '/' then SplitLastAfterLead(path, '/'); parts[|parts| - 1]
    else SplitLast(path, '/'); parts[|parts| - 1]
  }

  /** Only the text after the last `/` matters. */
  lemma ParsePathLeafOnly(path: string)
    ensures ParsePath(path) == DecodeLeaf(path[RFind(path, '/') + 1..])
  {
    if path == [] {
      DecodeNoSuffix(path);
    }
  }

  /** A leaf without `_` is all name, with both frames 0. */
  lemma DecodeNoSuffix(leaf: string)
    requires '_' !in leaf
    ensures DecodeLeaf(leaf) == Clip(DisplayName(leaf), 0, 0)
  {
    RFindUnique(leaf, '_', -1);
  }

  /** With one `_`, the text after it is always cut from the name; it is the end frame if it reads as an integer, else 0. */
  lemma DecodeOneSuffix(base: string, end: string)
    requires '_' !in base && '_' !in end
    ensures DecodeLeaf(base + "_" + end) == Clip(DisplayName(base), 0, IntOrZero(end))
  {
    var leaf := base + "_" + end;
    forall j | |base| < j < |leaf| ensures leaf[j] != '_' {
      assert leaf[j] == end[j - |base| - 1];
    }
    RFindUnique(leaf, '_', |base|);
    assert leaf[|base| + 1..] == end;
    assert leaf[..|base|] == base;
    RFindUnique(base, '_', -1);
  }

  /** A segment `<base>_<end>` with an integer end and no `_` in `base` decodes to start 0 and that end. */
  lemma DecodeEndOnly(base: string, end: int)
    requires '_' !in base
    ensures DecodeLeaf(base + "_" + IntToString(end)) == Clip(DisplayName(base), 0, end)
  {
    IntRoundTrip(end);
    DecodeOneSuffix(base, IntToString(end));
  }

  /**
   * The two texts after the last two `_` are always cut from the name and
   * read as start and end frame, each 0 when it is not an integer.
   */
  lemma DecodeTwoSuffixes(base: string, start: string, end: string)
    requires '_' !in start && '_' !in end
    ensures DecodeLeaf(base + "_" + start + "_" + end) == Clip(DisplayName(base), IntOrZero(start), IntOrZero(end))
  {
    var head := base + "_" + start;
    var leaf := head + "_" + end;
    forall j | |head| < j < |leaf| ensures leaf[j] != '_' {
      assert leaf[j] == end[j - |head| - 1];
    }
    RFindUnique(leaf, '_', |head|);
    assert leaf[|head| + 1..] == end;
    assert leaf[..|head|] == head;
    forall j | |base| < j < |head| ensures head[j] != '_' {
      assert head[j] == start[j - |base| - 1];
    }
    RFindUnique(head, '_', |base|);
    assert head[|base| + 1..] == start;
    assert head[..|base|] == base;
  }

  /** A segment without `/` at the end of a path is the segment `parse_path` decodes. */
  lemma DecodesFinalSegment(prefix: string, leaf: string)
    requires '/' !in leaf
    ensures ParsePath(prefix + "/" + leaf) == DecodeLeaf(leaf)
  {
    var path := prefix + "/" + leaf;
    forall j | |prefix| < j < |path| ensures path[j] != '/' {
      assert path[j] == leaf[j - |prefix| - 1];
    }
    RFindUnique(path, '/', |prefix|);
    ParsePathLeafOnly(path);
    assert path[|prefix| + 1..] == leaf;
  }

  /** The last segment an exporter writes for a clip: `<base>_<start>_<end>`. */
  function ClipLeaf(base: string, start: int, end: int): string
  {
    base + "_" + IntToString(start) + "_" + IntToString(end)
  }

  /** A clip's object path: `<prefix>/<base>_<start>_<end>`. */
  function ClipPath(prefix: string, base: string, start: int, end: int): string
  {
    prefix + "/" + ClipLeaf(base, start, end)
  }

  /** A clip segment with integer frames decodes to the display form of `base` and exactly those frames. */
  lemma DecodeClipLeaf(base: string, start: int, end: int)
    ensures DecodeLeaf(ClipLeaf(base, start, end)) == Clip(DisplayName(base), start, end)
  {
    IntRoundTrip(start);
    IntRoundTrip(end);
    DecodeTwoSuffixes(base, IntToString(start), IntToString(end));
  }

  /** A path whose last segment has no `_` decodes to that segment's display form and frames 0, 0. */
  lemma ParsePlainPath(prefix: string, leaf: string)
    requires '/' !in leaf && '_' !in leaf
    ensures ParsePath(prefix + "/" + leaf) == Clip(DisplayName(leaf), 0, 0)
  {
    DecodesFinalSegment(prefix, leaf);
    DecodeNoSuffix(leaf);
  }

  /** A path whose last segment carries only an end frame: `<prefix>/<base>_<end>`. */
  function EndPath(prefix: string, base: string, end: int): string
  {
    prefix + "/" + base + "_" + IntToString(end)
  }

  /** Such a path decodes to start frame 0 and exactly that end frame. */
  lemma ParseEndPath(prefix: string, base: string, end: int)
    requires '/' !in base && '_' !in base
    ensures ParsePath(EndPath(prefix, base, end)) == Clip(DisplayName(base), 0, end)
  {
    var leaf := base + "_" + IntToString(end);
    IntToStringNoUnderscore(end);
    assert '/' !in leaf;
    assert EndPath(prefix, base, end) == prefix + "/" + leaf;
    DecodesFinalSegment(prefix, leaf);
    DecodeEndOnly(base, end);
  }

  /**
   * Round trip: the path of a clip whose base name has no `/` decodes to
   * the display form of that name and exactly the frames written, whatever
   * comes before the last `/`.
   */
  lemma ParseClipPath(prefix: string, base: string, start: int, end: int)
    requires '/' !in base
    ensures ParsePath(ClipPath(prefix, base, start, end)) == Clip(DisplayName(base), start, end)
  {
    IntToStringNoUnderscore(start);
    IntToStringNoUnderscore(end);
    assert '/' !in ClipLeaf(base, start, end);
    DecodesFinalSegment(prefix, ClipLeaf(base, start, end));
    DecodeClipLeaf(base, start, end);
  }

  /** A clean display name: no `_`, no whitespace at either end, and title-cased. */
  predicate WellFormedName(name: string) {
    && '_' !in name
    && (name == [] || (name[0] !in StrSpace && name[|name| - 1] !in StrSpace))
    && IsTitled(name)
  }

  /** The display name never holds `_`: every one became a space, and title-casing keeps non-letters. */
  lemma DisplayNameNoUnderscore(anim: string)
    ensures '_' !in DisplayName(anim)
  {
    var replaced := ReplaceChar(anim, '_', ' ');
    ReplaceRemoves(anim, '_', ' ');
    StripKeepsAbsent(replaced, '_');
    TitleKeepsAbsent(Strip(replaced), '_');
  }

  /** The display name neither starts nor ends with whitespace. */
  lemma DisplayNameTrimmed(anim: string)
    ensures var name := DisplayName(anim);
      name == [] || (name[0] !in StrSpace && name[|name| - 1] !in StrSpace)
  {
    var stripped := Strip(ReplaceChar(anim, '_', ' '));
    if stripped != [] {
      TitleKeepsEnds(stripped);
    }
  }

  /** The display name never holds `_`, never starts or ends with whitespace, and is title-cased. */
  lemma DisplayNameWellFormed(anim: string)
    ensures WellFormedName(DisplayName(anim))
  {
    DisplayNameNoUnderscore(anim);
    DisplayNameTrimmed(anim);
    TitleIsTitled(Strip(ReplaceChar(anim, '_', ' ')));
  }

  /** The well-formedness of the display name, for whatever segment is decoded. */
  lemma DecodeLeafNameWellFormed(anim: string)
    ensures WellFormedName(DecodeLeaf(anim).name)
  {
    var u := RFind(anim, '_');
    if u >= 0 {
      var head := anim[..u];
      var u2 := RFind(head, '_');
      if u2 >= 0 {
        DisplayNameWellFormed(head[..u2]);
      } else {
        DisplayNameWellFormed(head);
      }
    } else {
      DisplayNameWellFormed(anim);
    }
  }

  /** Whatever the path, the decoded name is clean: no `_`, no surrounding whitespace, title-cased. */
  lemma ParsePathNameWellFormed(path: string)
    ensures WellFormedName(ParsePath(path).name)
  {
    if path == [] {
      assert ParsePath(path).name == [];
    } else {
      var leaf := LastSegment(path);
      assert ParsePath(path) == DecodeLeaf(leaf);
      DecodeLeafNameWellFormed(leaf);
    }
  }

  /** A name without `_` and without surrounding whitespace is only title-cased. */
  lemma DisplayNameOfPlain(anim: string)
    requires anim != [] && '_' !in anim && anim[0] !in StrSpace && anim[|anim| - 1] !in StrSpace
    ensures DisplayName(anim) == Title(anim)
  {
    ReplaceAbsent(anim, '_', ' ');
    TrimUnchanged(anim, StrSpace);
  }

  // Concrete steps of the examples below, each in a context of its own.

  lemma ReplaceAnimLol()
    ensures ReplaceChar("anim_lol", '_', ' ') == "anim lol"
  {
  }

  lemma TitleAnimLol()
    ensures Title("anim lol") == "Anim Lol"
  {
  }

  lemma NestedPath()
    ensures ClipPath("/shirt/bruh", "anim_lol", 10, 63) == "/shirt/bruh/anim_lol_10_63"
  {
    assert IntToString(10) == "10" && IntToString(63) == "63";
  }

  lemma RestPath()
    ensures "/shirt" + "/" + "rest" == "/shirt/rest" && '/' !in "rest" && '_' !in "rest"
  {
  }

  lemma ShirtPath()
    ensures "" + "/" + "shirt" == "/shirt" && '/' !in "shirt" && '_' !in "shirt"
  {
  }

  lemma EmptyLeafPaths()
    ensures "/shirt" + "/" + "" == "/shirt/" && "" + "/" + "" == "/"
  {
  }

  lemma FlapPath()
    ensures EndPath("/shirt", "flap", 12) == "/shirt/flap_12"
  {
    assert IntToString(12) == "12";
  }

  lemma DisplayAnimLol()
    ensures DisplayName("anim_lol") == "Anim Lol"
  {
    ReplaceAnimLol();
    DisplayNameOfPlain("anim lol");
    TitleAnimLol();
  }

  lemma TitleRest() ensures Title("rest") == "Rest" { }
  lemma TitleFlap() ensures Title("flap") == "Flap" { }
  lemma TitleShirt() ensures Title("shirt") == "Shirt" { }

  lemma DisplayRest() ensures DisplayName("rest") == "Rest" { DisplayNameOfPlain("rest"); TitleRest(); }
  lemma DisplayFlap() ensures DisplayName("flap") == "Flap" { DisplayNameOfPlain("flap"); TitleFlap(); }
  lemma DisplayShirt() ensures DisplayName("shirt") == "Shirt" { DisplayNameOfPlain("shirt"); TitleShirt(); }

  // The examples in `parse_path`'s own comment, one lemma each.

  lemma ExampleNested()
    ensures ParsePath("/shirt/bruh/anim_lol_10_63") == Clip("Anim Lol", 10, 63)
  {
    NestedPath();
    ParseClipPath("/shirt/bruh", "anim_lol", 10, 63);
    DisplayAnimLol();
  }

  lemma ExampleRest()
    ensures ParsePath("/shirt/rest") == Clip("Rest", 0, 0)
  {
    RestPath();
    ParsePlainPath("/shirt", "rest");
    DisplayRest();
  }

  lemma ExampleFlap()
    ensures ParsePath("/shirt/flap_12") == Clip("Flap", 0, 12)
  {
    FlapPath();
    ParseEndPath("/shirt", "flap", 12);
    DisplayFlap();
  }

  lemma ExampleTrailingSlash()
    ensures ParsePath("/shirt/") == Clip("", 0, 0)
  {
    EmptyLeafPaths();
    ParsePlainPath("/shirt", "");
  }

  lemma ExampleTopLevel()
    ensures ParsePath("/shirt") == Clip("Shirt", 0, 0)
  {
    ShirtPath();
    ParsePlainPath("", "shirt");
    DisplayShirt();
  }

  lemma ExampleRoot()
    ensures ParsePath("/") == Clip("", 0, 0)
  {
    EmptyLeafPaths();
    ParsePlainPath("", "");
  }

  lemma ExampleEmpty()
    ensures ParsePath("") == Clip("", 0, 0)
  {
  }

  // ---------------------------------------------------------------------
  // Loop driver

  /** The expression shape for a clip: the start frame, and the inclusive frame count as period. */
  function LoopShape(clip: Clip): Shape
  {
    Synthesize(clip.startFrame, clip.endFrame - clip.startFrame + 1)
  }

  /**
   * The frame override and drivers of a cache before and after `set_driver`
   * for `clip`: unchanged when the clip's end equals its start, otherwise
   * the override is on and the loop expression for the clip's bounds is
   * installed.
   */
  predicate DriverSet(oldOverride: bool, oldDrivers: seq<Driver>, newOverride: bool, newDrivers: seq<Driver>,
                      clip: Clip, speed: real, offset: real, show: real -> string)
  {
    if clip.endFrame - clip.startFrame == 0 then
      newOverride == oldOverride && newDrivers == oldDrivers
    else
      newOverride && newDrivers == Installed(oldDrivers, Render(LoopShape(clip), FrameText(speed, offset, show)))
  }

  /**
   * `set_driver`: the path is decoded and the cache changes as
   * `DriverSet` says; the loop expression goes on the last driver, or on a
   * new `frame` driver when the cache has none. Without a cache (`None`),
   * a clip of zero duration still returns early and any other raises
   * `AttributeError` at the first attribute read.
   */
  method SetDriver(cache: CacheFile?, path: string, speed: real, offset: real, show: real -> string)
    returns (outcome: Outcome)
    modifies cache
    ensures var clip := ParsePath(path);
      outcome == if cache == null && clip.endFrame - clip.startFrame != 0 then AttributeError else Returned
    ensures cache != null ==>
      && cache.objectPaths == old(cache.objectPaths)
      && DriverSet(old(cache.overrideFrame), old(cache.drivers), cache.overrideFrame, cache.drivers,
                   ParsePath(path), speed, offset, show)
  {
    var clip := ParsePath(path);
    outcome := SetClipDriver(cache, clip, speed, offset, show);
  }

  /** The part of `set_driver` after the path is decoded: the zero-length guard and the shared install. */
  method SetClipDriver(cache: CacheFile?, clip: Clip, speed: real, offset: real, show: real -> string)
    returns (outcome: Outcome)
    modifies cache
    ensures outcome == if cache == null && clip.endFrame - clip.startFrame != 0 then AttributeError else Returned
    ensures cache != null ==>
      && cache.objectPaths == old(cache.objectPaths)
      && DriverSet(old(cache.overrideFrame), old(cache.drivers), cache.overrideFrame, cache.drivers,
                   clip, speed, offset, show)
  {
    var loopStart, loopEnd := clip.startFrame, clip.endFrame;
    var loopDuration := loopEnd - loopStart;

    // A zero duration returns before the cache file is looked at.
    if loopDuration == 0 {
      return Returned;
    }

    assert LoopShape(clip) == Synthesize(loopStart, loopDuration + 1);
    outcome := SetLoopDriver(cache, speed, offset, loopStart, loopDuration + 1, show);
  }

  /**
   * `Animation_List_Data.set_anim`: the path at the selected index of the
   * cache's object paths (Python indexing, so a negative index counts from
   * the end and one out of range raises `IndexError`) becomes the
   * modifier's object path, and its clip drives the cache. A modifier
   * without a cache file raises `AttributeError` before anything changes.
   * The list's index, speed and offset are passed in, since the handler
   * only reads them.
   */
  method SetAnim(modifier: SequenceCacheModifier, selectedIndex: int, speed: real, offset: real, show: real -> string)
    returns (outcome: Outcome)
    modifies modifier, modifier.cacheFile
    ensures modifier.cacheFile == old(modifier.cacheFile)
    ensures outcome == AttributeError <==> modifier.cacheFile == null
    ensures modifier.cacheFile != null ==>
      && modifier.cacheFile.objectPaths == old(modifier.cacheFile.objectPaths)
      && (outcome == IndexError <==> PyIndex(|modifier.cacheFile.objectPaths|, selectedIndex).None?)
    ensures outcome != Returned ==> modifier.objectPath == old(modifier.objectPath)
    ensures outcome != Returned && modifier.cacheFile != null ==>
      && modifier.cacheFile.overrideFrame == old(modifier.cacheFile.overrideFrame)
      && modifier.cacheFile.drivers == old(modifier.cacheFile.drivers)
    ensures outcome == Returned ==>
      && modifier.cacheFile != null
      && var path := modifier.cacheFile.objectPaths[PyIndex(|modifier.cacheFile.objectPaths|, selectedIndex).value];
      && modifier.objectPath == path
      && DriverSet(old(modifier.cacheFile.overrideFrame), old(modifier.cacheFile.drivers),
                   modifier.cacheFile.overrideFrame, modifier.cacheFile.drivers, ParsePath(path), speed, offset, show)
  {
    var cache := modifier.cacheFile;
    if cache == null {
      return AttributeError;
    }
    var index := PyIndex(|cache.objectPaths|, selectedIndex);
    if index.None? {
      return IndexError;
    }
    var selectedAnim := cache.objectPaths[index.value];
    modifier.objectPath := selectedAnim;
    outcome := SetDriver(cache, selectedAnim, speed, offset, show);
  }

  /**
   * `Animation_List_Data.update_driver`: the modifier's current object path
   * drives its cache with the new speed and offset, as `set_driver` does.
   */
  method UpdateDriver(modifier: SequenceCacheModifier, speed: real, offset: real, show: real -> string)
    returns (outcome: Outcome)
    modifies modifier.cacheFile
    ensures var clip := ParsePath(modifier.objectPath);
      outcome == if modifier.cacheFile == null && clip.endFrame - clip.startFrame != 0 then AttributeError else Returned
    ensures modifier.cacheFile != null ==>
      && modifier.cacheFile.objectPaths == old(modifier.cacheFile.objectPaths)
      && DriverSet(old(modifier.cacheFile.overrideFrame), old(modifier.cacheFile.drivers),
                   modifier.cacheFile.overrideFrame, modifier.cacheFile.drivers,
                   ParsePath(modifier.objectPath), speed, offset, show)
  {
    outcome := SetDriver(modifier.cacheFile, modifier.objectPath, speed, offset, show);
  }

  /** A clip that starts at frame 0 and ends at `end > 0` loops through frames 0 .. end. */
  lemma LoopFromZero(clip: Clip, f: int)
    requires clip.startFrame == 0 && clip.endFrame > 0
    ensures Eval(LoopShape(clip), f).Some?
    ensures 0 <= Eval(LoopShape(clip), f).value <= clip.endFrame
    ensures 0 <= f <= clip.endFrame ==> Eval(LoopShape(clip), f) == Some(f)
  {
    WrapLoops(clip.endFrame + 1, f);
  }

  /**
   * A clip with a non-zero start before its end passes frames up to its
   * start through unchanged, then stays within [start, end] and repeats
   * every end - start + 1 frames.
   */
  lemma HoldThenLoop(clip: Clip, f: int)
    requires clip.startFrame != 0 && clip.startFrame < clip.endFrame
    ensures Eval(LoopShape(clip), f).Some?
    ensures f <= clip.startFrame ==> Eval(LoopShape(clip), f) == Some(f)
    ensures f >= clip.startFrame ==> clip.startFrame <= Eval(LoopShape(clip), f).value <= clip.endFrame
    ensures f >= clip.startFrame ==>
      Eval(LoopShape(clip), f + clip.endFrame - clip.startFrame + 1) == Eval(LoopShape(clip), f)
  {
    var n := clip.endFrame - clip.startFrame + 1;
    if f <= clip.startFrame {
      HoldBeforeStart(clip.startFrame, n, f);
    }
    if f >= clip.startFrame {
      LoopAfterStart(clip.startFrame, n, f);
    }
  }

  /** A clip `<prefix>/<base>_0_29` loops 0 .. 29: frames 0, 29, 30, 59, 60 show 0, 29, 0, 29, 0. */
  lemma LoopOfThirtyFrames(prefix: string, base: string)
    requires '/' !in base
    ensures var shape := LoopShape(ParsePath(ClipPath(prefix, base, 0, 29)));
      && shape == Wrap(30)
      && Eval(shape, 0) == Some(0) && Eval(shape, 29) == Some(29) && Eval(shape, 30) == Some(0)
      && Eval(shape, 59) == Some(29) && Eval(shape, 60) == Some(0)
  {
    ParseClipPath(prefix, base, 0, 29);
  }

  /** A clip `<prefix>/<base>_10_39` plays frames up to 10 unchanged and then loops within 10 .. 39. */
  lemma ImpactThenLoop(prefix: string, base: string, f: int)
    requires '/' !in base
    ensures var shape := LoopShape(ParsePath(ClipPath(prefix, base, 10, 39)));
      && shape == HoldThenWrap(10, 30)
      && (f <= 10 ==> Eval(shape, f) == Some(f))
      && (f >= 10 ==> 10 <= Eval(shape, f).value <= 39)
  {
    ParseClipPath(prefix, base, 10, 39);
    HoldThenLoop(Clip(DisplayName(base), 10, 39), f);
  }

  /**
   * The zero-length check only catches `end == start`: a clip whose end is
   * one before its start gets a driver whose period is 0, and that
   * expression raises `ZeroDivisionError` at every frame.
   */
  lemma EndBeforeStartZeroPeriod(prefix: string, base: string, start: int, f: int)
    requires '/' !in base
    ensures var clip := ParsePath(ClipPath(prefix, base, start, start - 1));
      && clip.endFrame - clip.startFrame != 0
      && Eval(LoopShape(clip), f).None?
  {
    var clip := ParsePath(ClipPath(prefix, base, start, start - 1));
    ParseClipPath(prefix, base, start, start - 1);
    assert clip == Clip(DisplayName(base), start, start - 1);
    assert LoopShape(clip).modulus == 0;
    ZeroPeriodRaises(LoopShape(clip), f);
  }
}
