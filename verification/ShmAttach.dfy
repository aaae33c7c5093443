/**
 Attaching a channel to a named segment (the POSIX arm), one attach at a time. The operating
 system is a map from names to objects; `fault` is the call it refuses, if any.
 */
module ShmAttach {
  import opened Bytes

  const HEADER_SIZE := 24
  const NAME_ROOM := 256

  const OK := 0
  const FAILED := -1
  const CAPACITY_MISMATCH := -2
  const FOREIGN_OWNER := -3

  datatype Header = Header(
    capacity: nat, published: nat, bufLen0: nat, bufLen1: nat, truncated: bool, generation: nat)

  datatype Object = Object(owner: nat, size: nat, header: Header, data: seq<byte>)

  type Namespace = map<string, Object>

  datatype Fault = NoFault | OpenFails | StatFails | TruncateFails | MapFails

  /**
   A channel's attachment. `mapped` names the object actually mapped; `attachedName` is the copy
   the channel keeps, cut at 255 characters. Buffers are offsets into the mapping.
   */
  datatype Attachment =
    | Detached
    | Mapped(mapped: string, attachedName: string, cap: nat, creator: bool, mappedSize: nat, buf0: nat, buf1: nat)

  datatype Outcome = Outcome(objects: Namespace, attachment: Attachment, code: int)

  const BLANK := Header(0, 0, 0, 0, false, 0)

  function SizeFor(capacity: nat): nat {
    HEADER_SIZE + 2 * capacity
  }

  function KeptName(name: string): string {
    Take(name, NAME_ROOM - 1)
  }

  /** `shm_open(name, O_CREAT | O_RDWR)`: the existing object, or a new empty one of ours. */
  function Opened(objects: Namespace, name: string, uid: nat): Object {
    if name in objects then objects[name] else Object(uid, 0, BLANK, [])
  }

  function MappedAt(name: string, capacity: nat, creator: bool, size: nat): Attachment {
    Mapped(name, KeptName(name), capacity, creator, size, HEADER_SIZE, HEADER_SIZE + capacity)
  }

  /** Up to the mapping: opens, checks the owner, and sizes the object if it is empty. */
  function OpenPhase(objects: Namespace, name: string, capacity: nat, uid: nat, fault: Fault): (r: (Namespace, int))
    ensures r.1 == OK ==> name in r.0
  {
    if fault == OpenFails then (objects, FAILED)
    else
      var o := Opened(objects, name, uid);
      var ns := objects[name := o];
      if fault == StatFails then (ns, FAILED)
      else if o.owner != uid then (ns, FOREIGN_OWNER)
      else if o.size == 0 && fault == TruncateFails then (ns, FAILED)
      else if 0 < o.size < HEADER_SIZE then (ns, FAILED)
      else
        var sized := if o.size == 0 then Object(uid, SizeFor(capacity), BLANK, Zeros(2 * capacity)) else o;
        (ns[name := sized], if fault == MapFails then FAILED else OK)
  }

  /** From the mapped header: the first attach claims it, a later one has to agree. */
  function HeaderPhase(ns: Namespace, name: string, capacity: nat): Outcome
    requires name in ns
  {
    var o := ns[name];
    if o.header.capacity == 0 then
      Outcome(ns[name := o.(header := BLANK.(capacity := capacity))], MappedAt(name, capacity, true, o.size), OK)
    else if o.header.capacity != capacity then Outcome(ns, Detached, CAPACITY_MISMATCH)
    else Outcome(ns, MappedAt(name, capacity, false, o.size), OK)
  }

  function Attach(objects: Namespace, a: Attachment, name: string, capacity: nat, uid: nat, fault: Fault): Outcome {
    if name == "" || capacity == 0 then Outcome(objects, a, FAILED)
    else if a.Mapped? && a.attachedName == name then Outcome(objects, a, OK)
    else
      var (ns, code) := OpenPhase(objects, name, capacity, uid, fault);
      if code != OK then Outcome(ns, Detached, code) else HeaderPhase(ns, name, capacity)
  }

  // ---- The operation in place ------------------------------------------------------------

  class OperatingSystem {
    var objects: Namespace

    constructor ()
      ensures objects == map[]
    {
      objects := map[];
    }

    method Open(name: string, capacity: nat, uid: nat, fault: Fault) returns (code: int)
      modifies this
      ensures (objects, code) == OpenPhase(old(objects), name, capacity, uid, fault)
    {
      if fault == OpenFails { return FAILED; }
      if name !in objects {
        objects := objects[name := Object(uid, 0, BLANK, [])];
      }
      var st := objects[name];
      assert objects == old(objects)[name := Opened(old(objects), name, uid)];
      if fault == StatFails { return FAILED; }
      if st.owner != uid { return FOREIGN_OWNER; }
      if st.size == 0 {
        if fault == TruncateFails { return FAILED; }
        objects := objects[name := Object(uid, SizeFor(capacity), BLANK, Zeros(2 * capacity))];
      } else if st.size < HEADER_SIZE {
        return FAILED;
      }
      if fault == MapFails { return FAILED; }
      return OK;
    }
  }

  class Channel {
    var attached: bool
    var mapped: string
    var attachedName: string
    var cap: nat
    var freshlyCreated: bool
    var mappedSize: nat
    var buf0: nat
    var buf1: nat

    constructor ()
      ensures Now() == Detached
    {
      attached := false;
      mapped, attachedName := "", "";
      cap, freshlyCreated, mappedSize, buf0, buf1 := 0, false, 0, 0, 0;
    }

    function Now(): Attachment
      reads this
    {
      if attached then Mapped(mapped, attachedName, cap, freshlyCreated, mappedSize, buf0, buf1) else Detached
    }

    /** The mapped header decides: claim it, agree with it, or unwind. */
    method AdoptHeader(os: OperatingSystem, name: string, capacity: nat) returns (code: int)
      requires name in os.objects && !attached
      modifies this, os
      ensures Outcome(os.objects, Now(), code) == HeaderPhase(old(os.objects), name, capacity)
    {
      var o := os.objects[name];
      if o.header.capacity == 0 {
        os.objects := os.objects[name := o.(header := BLANK.(capacity := capacity))];
        freshlyCreated := true;
      } else if o.header.capacity != capacity {
        return CAPACITY_MISMATCH;
      } else {
        freshlyCreated := false;
      }
      attached, mapped, cap := true, name, os.objects[name].header.capacity;
      buf0 := HEADER_SIZE;
      buf1 := buf0 + cap;
      mappedSize := o.size;
      attachedName := KeptName(name);
      return OK;
    }

    method Init(os: OperatingSystem, name: string, capacity: nat, uid: nat, fault: Fault) returns (code: int)
      modifies this, os
      ensures Outcome(os.objects, Now(), code) == Attach(old(os.objects), old(Now()), name, capacity, uid, fault)
    {
      if name == "" || capacity == 0 { return FAILED; }
      if attached {
        if attachedName == name { return OK; }
        attached := false;
      }
      code := os.Open(name, capacity, uid, fault);
      if code != OK { return; }
      code := AdoptHeader(os, name, capacity);
    }
  }
}
