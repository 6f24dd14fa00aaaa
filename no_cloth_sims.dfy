/**
 * The logic of the "No Cloth Sims" add-on: looking up a supported rig,
 * filling the animation list from a cache file's object paths, and the
 * handlers that install the looping driver with the fixed 64-frame loop.
 */
module NoClothSims {
  import opened PyText
  import opened LoopExpression
  import opened Catalog
  import opened Host
  import opened LoopDriver

  // ---------------------------------------------------------------------
  // Supported rigs

  const GaryLibraries: seq<Library> := [
    Library("A:\\mav\\2023\\sandbox\\studio2\\s223\\departments\\fx\\cloth_library\\gary_test_ties.abc",
            "Gary's Drip: Volume 1", "", "ASSET_MANAGER", 0)
  ]

  const Gary: Entry := map[
    "armature" := Text("gary"),
    "libs" := Libraries(GaryLibraries),
    "parts" := Names(["tie", "shirt", "pants"])
  ]

  const Carol: Entry := map[
    "armature" := Text("carol"),
    "libs" := Libraries([]),
    "parts" := Names(["blouse", "skirt", "scarf_", "scarf2_", "hair_main", "hair_front_right", "hair_front_left"])
  ]

  /** The add-on's `supported` table, in declaration order. */
  const Supported: seq<Entry> := [Gary, Carol]

  /**
   * `get_supported_data`: only `armature` holds a string in every entry, so
   * any other category raises `TypeError` at the first entry; with
   * `armature`, a name containing `gary` finds Gary before a name
   * containing `carol` finds Carol.
   */
  function GetSupportedData(name: string, category: string): (r: Lookup)
    ensures r == if category != "armature" then TypeError
                 else if Contains(name, "gary") then Found(Gary)
                 else if Contains(name, "carol") then Found(Carol)
                 else NotFound
  {
    assert Supported[1..] == [Carol] && Supported[1..][1..] == [];
    assert FuzzySearch([], name, category) == NotFound;
    assert category == "armature" ==>
      FuzzySearch([Carol], name, category) == if Contains(name, "carol") then Found(Carol) else NotFound;
    FuzzySearch(Supported, name, category)
  }

  // ---------------------------------------------------------------------
  // The fixed loop the handlers install

  /** The start frame every caller of `set_driver` passes. */
  const CallerStart := 0

  /** The loop length every caller of `set_driver` passes. */
  const CallerLoopFrames := 64

  /**
   * With the callers' arguments the installed expression is `(f) % 64`: over
   * integer frames it always lies in [0, 63], plays frames 0 .. 63 as they
   * are and repeats every 64 frames.
   */
  lemma CallersLoopRange(f: int)
    ensures Synthesize(CallerStart, CallerLoopFrames) == Wrap(64)
    ensures Eval(Synthesize(CallerStart, CallerLoopFrames), f).Some?
    ensures 0 <= Eval(Synthesize(CallerStart, CallerLoopFrames), f).value <= 63
    ensures Eval(Synthesize(CallerStart, CallerLoopFrames), f + 64) == Eval(Synthesize(CallerStart, CallerLoopFrames), f)
    ensures 0 <= f <= 63 ==> Eval(Synthesize(CallerStart, CallerLoopFrames), f) == Some(f)
  {
    WrapLoops(64, f);
  }

  /** With speed 1 and offset 0, as `set_anim_lib` passes them, the expression is exactly `(frame) % 64`. */
  lemma DefaultExpression(show: real -> string)
    ensures Render(Synthesize(CallerStart, CallerLoopFrames), FrameText(1.0, 0.0, show)) == "(frame) % 64"
  {
    FrameTextBare(1.0, 0.0, show);
    assert IntToString(64) == "64";
  }

  // ---------------------------------------------------------------------
  // The animation list

  /** One `Animation_Property`: display name, object path, speed and offset. */
  datatype AnimationItem = AnimationItem(name: string, path: string, speed: real, offset: real)

  /** The add-on's per-object list: the animation items and the selected one. */
  class AnimationListData {
    var caches: seq<AnimationItem>
    var selectedIndex: int

    constructor ()
      ensures caches == [] && selectedIndex == 0
    {
      caches := [];
      selectedIndex := 0;
    }
  }

  /** `path.replace("_", " ").title()`: the whole path, slashes and all. */
  function ItemName(path: string): string
  {
    Title(ReplaceChar(path, '_', ' '))
  }

  /** The item `update_anims` adds for `path`, with the properties' default speed 1 and offset 0. */
  function NewItem(path: string): AnimationItem
  {
    AnimationItem(ItemName(path), path, 1.0, 0.0)
  }

  /** One new item per object path, in order. */
  function Items(paths: seq<string>): (items: seq<AnimationItem>)
    ensures |items| == |paths|
    ensures forall i :: 0 <= i < |paths| ==> items[i] == NewItem(paths[i])
  {
    if paths == [] then [] else Items(paths[..|paths| - 1]) + [NewItem(paths[|paths| - 1])]
  }

  /** The index of the last `/rest` path, or 0 when there is none. */
  function RestIndex(paths: seq<string>): (r: int)
    ensures (forall i :: 0 <= i < |paths| ==> paths[i] != "/rest") ==> r == 0
    ensures (exists i :: 0 <= i < |paths| && paths[i] == "/rest") ==>
      && 0 <= r < |paths| && paths[r] == "/rest"
      && (forall j :: r < j < |paths| ==> paths[j] != "/rest")
  {
    if paths == [] then 0
    else if paths[|paths| - 1] == "/rest" then |paths| - 1
    else RestIndex(paths[..|paths| - 1])
  }

  /**
   * The list after the deferred `update_anims` poll: filled from the
   * paths, with the last `/rest` selected, only when it was empty.
   */
  function Poll(caches: seq<AnimationItem>, selectedIndex: int, paths: seq<string>): (seq<AnimationItem>, int)
  {
    if caches == [] then (Items(paths), RestIndex(paths)) else (caches, selectedIndex)
  }

  /** A second poll changes nothing: the list fills once. */
  lemma PollIdempotent(caches: seq<AnimationItem>, selectedIndex: int, paths: seq<string>)
    ensures var (c, s) := Poll(caches, selectedIndex, paths); Poll(c, s, paths) == (c, s)
  {
  }

  /** After a poll the selection is a valid index into the list, unless the list is empty. */
  lemma PollSelectionInRange(caches: seq<AnimationItem>, selectedIndex: int, paths: seq<string>)
    requires caches == [] || 0 <= selectedIndex < |caches|
    ensures var (c, s) := Poll(caches, selectedIndex, paths); c == [] || 0 <= s < |c|
  {
    if caches == [] && paths != [] {
      if exists i :: 0 <= i < |paths| && paths[i] == "/rest" {
      } else {
        assert RestIndex(paths) == 0;
      }
    }
  }

  /** `/rest` is listed as `/Rest`: the item name of a path is not that path. */
  lemma RestItemName()
    ensures ItemName("/rest") == "/Rest" && ItemName("/rest") != "/rest"
  {
    assert ReplaceChar("/rest", '_', ' ') == "/rest";
  }

  /**
   * `update_anims`: when the list is empty, one item per object path of
   * the cache is appended in order and the last `/rest` path is selected
   * (index 0 when there is none); a list that is already filled is left
   * as it is.
   */
  method UpdateAnims(props: AnimationListData, cache: CacheFile)
    modifies props
    ensures (props.caches, props.selectedIndex) == Poll(old(props.caches), old(props.selectedIndex), cache.objectPaths)
  {
    if props.caches == [] {
      var paths := cache.objectPaths;
      var selected := 0;
      var i := 0;
      while i < |paths|
        invariant 0 <= i <= |paths|
        invariant props.caches == Items(paths[..i])
        invariant selected == RestIndex(paths[..i])
      {
        var path := paths[i];
        assert paths[..i + 1][..i] == paths[..i];
        props.caches := props.caches + [AnimationItem(ItemName(path), path, 1.0, 0.0)];
        if path == "/rest" {
          selected := |props.caches| - 1;
        }
        i := i + 1;
      }
      assert paths[..i] == paths;
      // The last `/rest` entry seen, or 0 when there is none.
      props.selectedIndex := selected;
    }
  }

  // ---------------------------------------------------------------------
  // Handlers

  /**
   * `Animation_Property.update_driver`: the edited item's speed and offset
   * go into the modifier's cache driver with the fixed 64-frame loop; a
   * modifier without a cache file raises `AttributeError` in `set_driver`.
   */
  method UpdateDriver(item: AnimationItem, modifier: SequenceCacheModifier, show: real -> string)
    returns (outcome: Outcome)
    modifies modifier.cacheFile
    ensures outcome == if modifier.cacheFile == null then AttributeError else Returned
    ensures modifier.cacheFile != null ==>
      && modifier.cacheFile.overrideFrame
      && modifier.cacheFile.objectPaths == old(modifier.cacheFile.objectPaths)
      && modifier.cacheFile.drivers
         == Installed(old(modifier.cacheFile.drivers), Render(Wrap(64), FrameText(item.speed, item.offset, show)))
  {
    outcome := SetLoopDriver(modifier.cacheFile, item.speed, item.offset, CallerStart, CallerLoopFrames, show);
  }

  /**
   * `set_anim_lib` once the library's cache file is loaded: the cache gets
   * the plain 64-frame loop, the modifier points at `/rest` of it and the
   * list is emptied so that the next poll fills it from this cache.
   */
  method SetAnimLib(props: AnimationListData, modifier: SequenceCacheModifier, cache: CacheFile, show: real -> string)
    modifies props, modifier, cache
    ensures cache.overrideFrame && cache.objectPaths == old(cache.objectPaths)
    ensures cache.drivers == Installed(old(cache.drivers), "(frame) % 64")
    ensures modifier.cacheFile == cache && modifier.objectPath == "/rest"
    ensures props.caches == [] && props.selectedIndex == old(props.selectedIndex)
  {
    DefaultExpression(show);
    var _ := SetLoopDriver(cache, 1.0, 0.0, CallerStart, CallerLoopFrames, show);
    modifier.cacheFile := cache;
    modifier.objectPath := "/rest";
    props.caches := [];
  }

  /**
   * `set_anim`: the selected item (Python indexing, so a negative index
   * counts from the end and one out of range raises `IndexError`) is
   * written to the modifier, by its display name, and its speed and offset
   * go into the driver with the fixed 64-frame loop. A modifier without a
   * cache file gets the name written and then raises `AttributeError` in
   * `set_driver`.
   */
  method SetAnim(props: AnimationListData, modifier: SequenceCacheModifier, show: real -> string)
    returns (outcome: Outcome)
    modifies modifier, modifier.cacheFile
    ensures modifier.cacheFile == old(modifier.cacheFile)
    ensures outcome == IndexError <==> PyIndex(|props.caches|, props.selectedIndex).None?
    ensures outcome == AttributeError <==> PyIndex(|props.caches|, props.selectedIndex).Some? && modifier.cacheFile == null
    ensures outcome == IndexError ==> modifier.objectPath == old(modifier.objectPath)
    ensures outcome != Returned && modifier.cacheFile != null ==>
      && modifier.cacheFile.overrideFrame == old(modifier.cacheFile.overrideFrame)
      && modifier.cacheFile.drivers == old(modifier.cacheFile.drivers)
    ensures outcome != IndexError ==>
      modifier.objectPath == props.caches[PyIndex(|props.caches|, props.selectedIndex).value].name
    ensures outcome == Returned ==>
      var item := props.caches[PyIndex(|props.caches|, props.selectedIndex).value];
      && modifier.cacheFile != null
      && modifier.cacheFile.overrideFrame
      && modifier.cacheFile.drivers
         == Installed(old(modifier.cacheFile.drivers), Render(Wrap(64), FrameText(item.speed, item.offset, show)))
    ensures modifier.cacheFile != null ==> modifier.cacheFile.objectPaths == old(modifier.cacheFile.objectPaths)
  {
    var index := PyIndex(|props.caches|, props.selectedIndex);
    if index.None? {
      return IndexError;
    }
    var selectedCache := props.caches[index.value];
    modifier.objectPath := selectedCache.name;
    outcome := SetLoopDriver(modifier.cacheFile, selectedCache.speed, selectedCache.offset, CallerStart, CallerLoopFrames, show);
  }

  /**
   * After the list is filled from a cache holding `/rest`, selecting that
   * item points the modifier at `/Rest`, which is not one of the paths the
   * list came from.
   */
  lemma SelectedRestIsNotAPath(paths: seq<string>, k: int)
    requires 0 <= k < |paths| && paths[k] == "/rest"
    ensures Items(paths)[k].name == "/Rest"
    ensures Items(paths)[k].name != Items(paths)[k].path
  {
    RestItemName();
  }
}
