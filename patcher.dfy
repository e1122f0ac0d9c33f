/** Patchers: the callbacks that, once an object read from a stream has been
  * instantiated, store it where the unmarshalling code left a hole. The
  * Java `ListPatcher` sets one element of a list; the C# `ParamPatcher`
  * keeps the object in a field and the C# `SequencePatcher` stores it in a
  * list (growing the list with filler first) or an array slot. */
module IcePatchers {
  import opened Basics

  /** An instantiated object: its most-derived class name and every class
    * it is an instance of. */
  datatype IceObject = IceObject(id: nat, className: string, classes: set<string>)

  /** `Class.isInstance` / `Type.IsInstanceOfType`. */
  predicate IsInstance(v: IceObject, typeName: string)
  {
    typeName in v.classes
  }

  /** A hole still empty, the shared filler object a C# list is padded with,
    * or a patched object. */
  datatype Slot = Empty | Filler | Holds(obj: IceObject)

  datatype PatchError =
    | ClassCastException(expected: string, received: string)
    | IndexOutOfBoundsException(index: int)
    | InvalidCastException(expected: string, received: string)

  /** A list or array that holds the objects being read. `isList` tells an
    * `IList` from a `System.Array`; `elementType`, when present, is the
    * element type the container checks each stored object against. */
  class Container {
    const isList: bool
    const elementType: Option<string>
    var slots: seq<Slot>

    constructor(isList: bool, elementType: Option<string>, slots: seq<Slot>)
      ensures this.isList == isList && this.elementType == elementType && this.slots == slots
    {
      this.isList := isList;
      this.elementType := elementType;
      this.slots := slots;
    }
  }

  // ---------------------------------------------------------------------
  // Java: ListPatcher
  // ---------------------------------------------------------------------

  /** `ListPatcher.patch` on the list's contents: an object of the wrong
    * class raises `ClassCastException`; otherwise `List.set` replaces the
    * element at the index, or raises `IndexOutOfBoundsException` when the
    * index is outside the list. */
  function ListPatched(slots: seq<Slot>, cls: string, index: int, v: IceObject)
    : (r: Result<seq<Slot>, PatchError>)
    ensures !IsInstance(v, cls) ==> r == Failure(ClassCastException(cls, v.className))
    ensures IsInstance(v, cls) && !(0 <= index < |slots|) ==> r == Failure(IndexOutOfBoundsException(index))
    ensures r.Success? <==> IsInstance(v, cls) && 0 <= index < |slots|
    ensures r.Success? ==>
              && |r.value| == |slots|
              && r.value[index] == Holds(v)
              && (forall j :: 0 <= j < |slots| && j != index ==> r.value[j] == slots[j])
  {
    if !IsInstance(v, cls) then Failure(ClassCastException(cls, v.className))
    else if !(0 <= index < |slots|) then Failure(IndexOutOfBoundsException(index))
    else Success(slots[index := Holds(v)])
  }

  /** Patching twice with the same object is patching once; patching two
    * different holes of a list with two objects can be done in either
    * order. */
  lemma ListPatchIdempotentAndCommutes(slots: seq<Slot>, cls: string, i: int, j: int, v: IceObject, w: IceObject)
    requires IsInstance(v, cls) && IsInstance(w, cls)
    requires 0 <= i < |slots| && 0 <= j < |slots| && i != j
    ensures ListPatched(ListPatched(slots, cls, i, v).value, cls, i, v) == ListPatched(slots, cls, i, v)
    ensures ListPatched(ListPatched(slots, cls, i, v).value, cls, j, w)
         == ListPatched(ListPatched(slots, cls, j, w).value, cls, i, v)
  {
    var once := ListPatched(slots, cls, i, v).value;
    assert ListPatched(once, cls, i, v).value == once by {
      forall k | 0 <= k < |slots|
        ensures ListPatched(once, cls, i, v).value[k] == once[k]
      {
      }
    }
    var a := ListPatched(ListPatched(slots, cls, i, v).value, cls, j, w).value;
    var b := ListPatched(ListPatched(slots, cls, j, w).value, cls, i, v).value;
    assert a == b by {
      forall k | 0 <= k < |slots|
        ensures a[k] == b[k]
      {
      }
    }
  }

  class ListPatcher {
    const list: Container
    const cls: string
    const typeName: string
    const index: int32

    constructor(list: Container, cls: string, typeName: string, index: int32)
      ensures this.list == list && this.cls == cls && this.typeName == typeName && this.index == index
    {
      this.list := list;
      this.cls := cls;
      this.typeName := typeName;
      this.index := index;
    }

    /** `patch`: on success the list holds the object at the index; on
      * either exception the list is left as it was. */
    method Patch(v: IceObject) returns (s: Status<PatchError>)
      modifies list
      ensures ListPatched(old(list.slots), cls, index, v).Success? ==>
                s == Done && list.slots == ListPatched(old(list.slots), cls, index, v).value
      ensures ListPatched(old(list.slots), cls, index, v).Failure? ==>
                s == Raised(ListPatched(old(list.slots), cls, index, v).error) && list.slots == old(list.slots)
    {
      if !IsInstance(v, cls) {
        return Raised(ClassCastException(cls, v.className));
      }
      if !(0 <= index < |list.slots|) {
        return Raised(IndexOutOfBoundsException(index as int));
      }
      list.slots := list.slots[index := Holds(v)];
      s := Done;
    }

    /** `type`: the type id given at construction. */
    function Type(): (t: string)
      ensures t == typeName
    {
      typeName
    }
  }

  // ---------------------------------------------------------------------
  // C#: ParamPatcher and SequencePatcher
  // ---------------------------------------------------------------------

  class ParamPatcher {
    const typeName: string
    var value: Option<IceObject>

    constructor(typeName: string)
      ensures this.typeName == typeName && value == None
    {
      this.typeName := typeName;
      value := None;
    }

    /** `patch`: an object of the wrong type raises `InvalidCastException`
      * and keeps the old value; otherwise the object is the value. */
    method Patch(v: IceObject) returns (s: Status<PatchError>)
      modifies this`value
      ensures s.Done? <==> IsInstance(v, typeName)
      ensures s.Done? ==> value == Some(v)
      ensures s.Raised? ==> s.error == InvalidCastException(typeName, v.className) && value == old(value)
    {
      if !IsInstance(v, typeName) {
        return Raised(InvalidCastException(typeName, v.className));
      }
      value := Some(v);
      s := Done;
    }

    /** `type`: the full name of the expected type. */
    function Type(): (t: string)
      ensures t == typeName
    {
      typeName
    }
  }

  /** `count` copies of the filler object. */
  function Fillers(count: nat): (r: seq<Slot>)
    ensures |r| == count
    ensures forall j :: 0 <= j < count ==> r[j] == Filler
  {
    if count == 0 then [] else Fillers(count - 1) + [Filler]
  }

  /** The padding loop of `SequencePatcher.patch`: a list too short for the
    * index grows with filler until the index is its last position. */
  function Padded(slots: seq<Slot>, index: int): (r: seq<Slot>)
    ensures |r| == if index >= |slots| then index + 1 else |slots|
    ensures r[..|slots|] == slots
    ensures forall j :: |slots| <= j < |r| ==> r[j] == Filler
  {
    if index >= |slots| then slots + Fillers(index + 1 - |slots|) else slots
  }

  /** Whether the container accepts the object at the index: inside its
    * bounds and, when it checks types, of its element type. */
  predicate Accepts(slots: seq<Slot>, elementType: Option<string>, index: int, v: IceObject)
  {
    0 <= index < |slots| && (elementType.Some? ==> IsInstance(v, elementType.value))
  }

  /** `SequencePatcher.patch` on the container's contents: a list is padded
    * first, then the object is stored at the index; a failed store leaves
    * the padding in place and surfaces as `InvalidCastException`, whatever
    * the container raised. */
  function SequencePatched(slots: seq<Slot>, isList: bool, elementType: Option<string>, typeName: string,
                           index: int, v: IceObject): (r: (seq<Slot>, Status<PatchError>))
    ensures r.1.Raised? ==> r.1.error == InvalidCastException(typeName, v.className)
  {
    var grown := if isList then Padded(slots, index) else slots;
    if Accepts(grown, elementType, index, v) then (grown[index := Holds(v)], Done)
    else (grown, Raised(InvalidCastException(typeName, v.className)))
  }

  /** What a patch leaves behind: a list always reaches past the index, and
    * on success the object sits at the index, earlier elements are as they
    * were and the ones added in between are filler; an array never changes
    * length and a failed store into it changes nothing. */
  lemma SequencePatchedFacts(slots: seq<Slot>, isList: bool, elementType: Option<string>, typeName: string,
                             index: int, v: IceObject)
    ensures var r := SequencePatched(slots, isList, elementType, typeName, index, v);
            && (isList && index >= 0 ==> |r.0| == if index >= |slots| then index + 1 else |slots|)
            && (!isList ==> |r.0| == |slots|)
            && (!isList && r.1.Raised? ==> r.0 == slots)
            && (r.1.Done? <==> (0 <= index && (isList || index < |slots|) &&
                                (elementType.Some? ==> IsInstance(v, elementType.value))))
            && (r.1.Done? ==> r.0[index] == Holds(v))
            && (forall j :: 0 <= j < |slots| && j != index ==> r.0[j] == slots[j])
            && (forall j :: |slots| <= j < |r.0| && j != index ==> r.0[j] == Filler)
  {
    var grown := if isList then Padded(slots, index) else slots;
    assert forall j :: 0 <= j < |slots| ==> grown[j] == slots[j] by {
      assert grown[..|slots|] == slots;
      forall j | 0 <= j < |slots|
        ensures grown[j] == slots[j]
      {
        assert grown[..|slots|][j] == grown[j];
      }
    }
  }

  class SequencePatcher {
    const target: Container
    const typeName: string
    const index: int32

    constructor(target: Container, typeName: string, index: int32)
      ensures this.target == target && this.typeName == typeName && this.index == index
    {
      this.target := target;
      this.typeName := typeName;
      this.index := index;
    }

    /** `patch`: the container's new contents and the outcome are those of
      * `SequencePatched`. */
    method Patch(v: IceObject) returns (s: Status<PatchError>)
      modifies target
      ensures (target.slots, s)
           == SequencePatched(old(target.slots), target.isList, target.elementType, typeName, index, v)
    {
      if target.isList {
        if index as int >= |target.slots| {
          var i := |target.slots|;
          ghost var start := target.slots;
          while i <= index as int
            invariant |start| <= i <= index as int + 1
            invariant target.slots == start + Fillers(i - |start|)
            decreases index as int + 1 - i
          {
            target.slots := target.slots + [Filler];
            i := i + 1;
          }
        }
      }
      if !Accepts(target.slots, target.elementType, index as int, v) {
        return Raised(InvalidCastException(typeName, v.className));
      }
      target.slots := target.slots[index as int := Holds(v)];
      s := Done;
    }

    /** `type`: the full name of the expected type. */
    function Type(): (t: string)
      ensures t == typeName
    {
      typeName
    }
  }
}
