/**
 * The scene-object list, save flag, attributes and frame list of
 * LinkedFileObject (src/core/dataset/importexport/LinkedFileObject.h).
 */
module LinkedFile {
  import opened Wrappers
  import opened FrameSources

  /**
   * A scene object: its own saveWithScene flag, and the names of the
   * classes it is an instance of (its class and all base classes), which
   * decide whether dynamic_object_cast<T> succeeds.
   */
  class SceneObject {
    var saveWithScene: bool
    const classNames: set<string>

    constructor (names: set<string>, save: bool)
      ensures classNames == names && saveWithScene == save
    {
      classNames := names;
      saveWithScene := save;
    }
  }

  /** A QVariant attribute value (only the kinds this model needs). */
  datatype Variant = IntValue(i: int) | StringValue(s: string)

  /** No object occurs twice in the list. */
  predicate NoDuplicates(objs: seq<SceneObject>)
  {
    forall i, j :: 0 <= i < j < |objs| ==> objs[i] != objs[j]
  }

  /** The entries of `objs` that belong to `active`, in their original order. */
  function KeepActive(objs: seq<SceneObject>, active: set<SceneObject>): seq<SceneObject>
  {
    if objs == [] then []
    else if objs[0] in active then [objs[0]] + KeepActive(objs[1..], active)
    else KeepActive(objs[1..], active)
  }

  /** `sub` is obtained from `full` by deleting some entries. */
  predicate IsSubsequence<T(==)>(sub: seq<T>, full: seq<T>)
    decreases |full|
  {
    if sub == [] then true
    else if full == [] then false
    else if sub[0] == full[0] then IsSubsequence(sub[1..], full[1..])
    else IsSubsequence(sub, full[1..])
  }

  /**
   * removeInactiveObjects keeps exactly the listed objects that are active,
   * in their original relative order.
   */
  lemma {:induction false} KeepActiveIsFilter(objs: seq<SceneObject>, active: set<SceneObject>)
    ensures forall o :: o in KeepActive(objs, active) <==> o in objs && o in active
    ensures IsSubsequence(KeepActive(objs, active), objs)
    decreases |objs|
  {
    if objs != [] {
      KeepActiveIsFilter(objs[1..], active);
      assert objs == [objs[0]] + objs[1..];
      if objs[0] in active {
        assert KeepActive(objs, active)[1..] == KeepActive(objs[1..], active);
      }
    }
  }

  /** Filtering keeps a duplicate-free list duplicate-free. */
  lemma {:induction false} KeepActiveNoDuplicates(objs: seq<SceneObject>, active: set<SceneObject>)
    requires NoDuplicates(objs)
    ensures NoDuplicates(KeepActive(objs, active))
    decreases |objs|
  {
    if objs != [] {
      KeepActiveNoDuplicates(objs[1..], active);
      KeepActiveIsFilter(objs[1..], active);
      assert objs[0] !in objs[1..];
    }
  }

  /** Removing entry k of a list and then filtering is filtering when entry k is inactive. */
  lemma {:induction false} KeepActiveSkipsInactive(objs: seq<SceneObject>, active: set<SceneObject>, k: nat)
    requires k < |objs| && objs[k] !in active
    ensures KeepActive(objs[..k] + objs[k + 1..], active) == KeepActive(objs, active)
    decreases k
  {
    if k == 0 {
      assert objs[..0] + objs[1..] == objs[1..];
    } else {
      KeepActiveSkipsInactive(objs[1..], active, k - 1);
      assert (objs[..k] + objs[k + 1..])[1..] == objs[1..][..k - 1] + objs[1..][k..];
    }
  }

  /** The index of the first entry of `objs` that is an instance of `className`, if any. */
  function FirstOfClass(objs: seq<SceneObject>, className: string): (r: Option<nat>)
    ensures r.Some? ==> r.value < |objs| && className in objs[r.value].classNames
    ensures r.Some? ==> forall j :: 0 <= j < r.value ==> className !in objs[j].classNames
    ensures r.None? ==> forall j :: 0 <= j < |objs| ==> className !in objs[j].classNames
    decreases |objs|
  {
    if objs == [] then None
    else if className in objs[0].classNames then Some(0)
    else match FirstOfClass(objs[1..], className)
      case None => None
      case Some(k) => Some(k + 1)
  }

  class LinkedFileObject {
    var sceneObjects: seq<SceneObject>
    var saveWithScene: bool
    var attributes: map<string, Variant>
    var frames: seq<FrameSourceInformation>

    /** The list invariant kept by addSceneObject. */
    ghost predicate Valid()
      reads this
    {
      NoDuplicates(sceneObjects)
    }

    constructor ()
      ensures Valid()
      ensures sceneObjects == [] && attributes == map[] && frames == []
    {
      sceneObjects := [];
      attributes := map[];
      frames := [];
    }

    /** numberOfFrames: the length of the frame list. */
    function NumberOfFrames(): int
      reads this
    {
      |frames|
    }

    /**
     * addSceneObject: an object not yet listed gets the container's save
     * flag and is appended; a listed object is left alone.
     */
    method AddSceneObject(obj: SceneObject)
      requires Valid()
      modifies this`sceneObjects, obj`saveWithScene
      ensures Valid()
      ensures old(obj in sceneObjects) ==> sceneObjects == old(sceneObjects) && obj.saveWithScene == old(obj.saveWithScene)
      ensures old(obj !in sceneObjects) ==> sceneObjects == old(sceneObjects) + [obj] && obj.saveWithScene == saveWithScene
    {
      if obj !in sceneObjects {
        obj.saveWithScene := saveWithScene;
        sceneObjects := sceneObjects + [obj];
      }
    }

    /**
     * findSceneObject<T>: walks the list and returns the first object that
     * casts to T, or null when none does.
     */
    method FindSceneObject(className: string) returns (r: SceneObject?)
      ensures r != null ==> r in sceneObjects && className in r.classNames
      ensures r != null ==>
        (exists k :: 0 <= k < |sceneObjects| && sceneObjects[k] == r &&
           (forall j :: 0 <= j < k ==> className !in sceneObjects[j].classNames))
      ensures r == null <==> forall o :: o in sceneObjects ==> className !in o.classNames
      ensures match FirstOfClass(sceneObjects, className)
              case None => r == null
              case Some(k) => r == sceneObjects[k]
    {
      var i := 0;
      while i < |sceneObjects|
        invariant i <= |sceneObjects|
        invariant forall j :: 0 <= j < i ==> className !in sceneObjects[j].classNames
      {
        if className in sceneObjects[i].classNames {
          return sceneObjects[i];
        }
        i := i + 1;
      }
      return null;
    }

    /**
     * removeInactiveObjects: walks the list from the back and removes every
     * entry that is not in the active set.
     */
    method RemoveInactiveObjects(activeObjects: set<SceneObject>)
      requires Valid()
      modifies this`sceneObjects
      ensures Valid()
      ensures sceneObjects == KeepActive(old(sceneObjects), activeObjects)
    {
      ghost var original := sceneObjects;
      var index := |sceneObjects| - 1;
      while index >= 0
        invariant -1 <= index < |sceneObjects|
        invariant sceneObjects[..index + 1] == original[..index + 1]
        invariant KeepActive(sceneObjects, activeObjects) == KeepActive(original, activeObjects)
        invariant forall o :: o in sceneObjects[index + 1..] ==> o in activeObjects
        decreases index
      {
        if sceneObjects[index] !in activeObjects {
          KeepActiveSkipsInactive(sceneObjects, activeObjects, index);
          sceneObjects := sceneObjects[..index] + sceneObjects[index + 1..];
        }
        index := index - 1;
      }
      AllActiveIsFixpoint(sceneObjects, activeObjects);
      KeepActiveNoDuplicates(original, activeObjects);
    }

    /**
     * setSaveWithScene: sets the container's flag and propagates it to every
     * listed object.
     */
    method SetSaveWithScene(on: bool)
      modifies this`saveWithScene, sceneObjects
      ensures saveWithScene == on
      ensures forall o :: o in sceneObjects ==> o.saveWithScene == on
    {
      saveWithScene := on;
      for i := 0 to |sceneObjects|
        invariant saveWithScene == on
        invariant forall j :: 0 <= j < i ==> sceneObjects[j].saveWithScene == on
      {
        sceneObjects[i].saveWithScene := on;
      }
    }

    /** setAttributes: the attribute map is replaced wholesale. */
    method SetAttributes(attrs: map<string, Variant>)
      modifies this`attributes
      ensures attributes == attrs
    {
      attributes := attrs;
    }

    /** clearAttributes: the attribute map becomes empty. */
    method ClearAttributes()
      modifies this`attributes
      ensures attributes == map[]
    {
      attributes := map[];
    }
  }

  /** A list whose every entry is active is left as it is by the filter. */
  lemma {:induction false} AllActiveIsFixpoint(objs: seq<SceneObject>, active: set<SceneObject>)
    requires forall o :: o in objs ==> o in active
    ensures KeepActive(objs, active) == objs
    decreases |objs|
  {
    if objs != [] {
      AllActiveIsFixpoint(objs[1..], active);
    }
  }
}
