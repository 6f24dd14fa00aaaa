/**
 * The parts of the host's data model the add-ons read and write: a cache
 * file's frame override and its drivers, a sequence-cache modifier, and
 * scene objects with their children.
 */
module Host {

  /** How a handler ends: it returns, or Python raises the named exception. */
  datatype Outcome = Returned | IndexError | AttributeError

  /** One driver F-curve: the property it drives and its scripted expression. */
  datatype Driver = Driver(dataPath: string, expression: string)

  /**
   * A cache file datablock: whether its frame is overridden, its animation
   * data's driver F-curves in order (empty when it has no animation data)
   * and the object paths stored in the file.
   */
  class CacheFile {
    var overrideFrame: bool
    var drivers: seq<Driver>
    var objectPaths: seq<string>

    constructor (objectPaths: seq<string>)
      ensures !overrideFrame && drivers == [] && this.objectPaths == objectPaths
    {
      overrideFrame := false;
      drivers := [];
      this.objectPaths := objectPaths;
    }
  }

  /**
   * A sequence-cache modifier: the cache file it reads (`null` for Python's
   * `None` while none is assigned) and the object path inside it.
   */
  class SequenceCacheModifier {
    var cacheFile: CacheFile?
    var objectPath: string

    constructor (cacheFile: CacheFile?, objectPath: string)
      ensures this.cacheFile == cacheFile && this.objectPath == objectPath
    {
      this.cacheFile := cacheFile;
      this.objectPath := objectPath;
    }
  }

  /**
   * The driver list after installing `expression` the way both add-ons do:
   * the last driver is reused if there is one, otherwise a `frame` driver
   * is added, and the chosen driver gets the new expression.
   */
  function Installed(drivers: seq<Driver>, expression: string): (r: seq<Driver>)
    ensures |r| == if drivers == [] then 1 else |drivers|
    ensures r[|r| - 1].expression == expression
    ensures drivers == [] ==> r[0].dataPath == "frame"
    ensures drivers != [] ==>
      && r[..|r| - 1] == drivers[..|drivers| - 1]
      && r[|r| - 1].dataPath == drivers[|drivers| - 1].dataPath
  {
    if drivers == [] then [Driver("frame", expression)]
    else drivers[|drivers| - 1 := drivers[|drivers| - 1].(expression := expression)]
  }

  /** Installing twice never adds a second driver: the later expression simply replaces the earlier one. */
  lemma InstalledTwice(drivers: seq<Driver>, first: string, second: string)
    ensures Installed(Installed(drivers, first), second) == Installed(drivers, second)
  {
    var once := Installed(drivers, first);
    var twice := Installed(once, second);
    var direct := Installed(drivers, second);
    assert |twice| == |direct|;
    forall i | 0 <= i < |twice| ensures twice[i] == direct[i] {
      if i < |twice| - 1 {
        assert twice[i] == twice[..|twice| - 1][i];
        assert direct[i] == direct[..|direct| - 1][i];
      }
    }
  }

  /** A scene object as the add-ons see it: whether it is a mesh, its name and its child objects. */
  datatype SceneObject = SceneObject(isMesh: bool, name: string, children: seq<SceneObject>)

  /** `children_recursive`: every descendant of `obj`, each child followed by its own descendants. */
  function ChildrenRecursive(obj: SceneObject): seq<SceneObject>
    decreases obj, 1
  {
    DescendantsOf(obj.children)
  }

  /** The objects in `objs`, each followed by all of its descendants. */
  function DescendantsOf(objs: seq<SceneObject>): seq<SceneObject>
    decreases objs, 0
  {
    if objs == [] then []
    else [objs[0]] + ChildrenRecursive(objs[0]) + DescendantsOf(objs[1..])
  }
}
