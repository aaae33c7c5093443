/**
 Any number of channels attaching, re-attaching and being refused, in any order: what they agree
 on about every segment, and the two cases in which they do not.
 */
module ShmLayout {
  import opened Bytes
  import opened ShmAttach

  /** `births` lists the names whose header some attach claimed, in order. */
  datatype World = World(objects: Namespace, channels: seq<Attachment>, births: seq<string>)

  datatype Event =
    | Attempt(channel: nat, name: string, capacity: nat, uid: nat, fault: Fault)
    | Use(name: string, header: Header, data: seq<byte>)   // a producer publishes through a live segment

  /** The channel already believes it is attached to this name. */
  predicate Shortcut(a: Attachment, name: string) {
    a.Mapped? && a.attachedName == name
  }

  function Step(w: World, e: Event): World {
    match e
    case Attempt(i, name, capacity, uid, fault) =>
      if i >= |w.channels| then w
      else
        var r := Attach(w.objects, w.channels[i], name, capacity, uid, fault);
        var born := r.code == OK && !Shortcut(w.channels[i], name) && r.attachment.Mapped? && r.attachment.creator;
        World(r.objects, w.channels[i := r.attachment], if born then w.births + [name] else w.births)
    case Use(name, header, data) =>
      if name in w.objects && w.objects[name].header.capacity > 0 && |data| == |w.objects[name].data| then
        var o := w.objects[name];
        w.(objects := w.objects[name := o.(header := header.(capacity := o.header.capacity), data := data)])
      else w
  }

  function Run(w: World, events: seq<Event>): World
    decreases |events|
  {
    if events == [] then w else Step(Run(w, events[..|events| - 1]), events[|events| - 1])
  }

  /** No segments yet, `n` channels that have never attached. */
  function Empty(n: nat): World {
    World(map[], seq(n, _ => Detached), [])
  }

  // ---- Single attaches -------------------------------------------------------------------

  /** A segment in use is never touched by anyone's attach: not its header, size, owner or bytes. */
  lemma AttachLeavesSegmentsAlone(w: World, e: Event, name: string)
    requires e.Attempt? && name in w.objects && w.objects[name].header.capacity > 0 && w.objects[name].size > 0
    ensures var w' := Step(w, e); name in w'.objects && w'.objects[name] == w.objects[name]
  {
  }

  /** A size never changes once it is nonzero, nor does the owner, nor a nonzero capacity. */
  lemma SizeIsFixed(w: World, e: Event, name: string)
    requires name in w.objects
    ensures
      var o, w' := w.objects[name], Step(w, e);
      && name in w'.objects && w'.objects[name].owner == o.owner
      && (o.size > 0 ==> w'.objects[name].size == o.size)
      && (o.header.capacity > 0 && o.size > 0 ==> w'.objects[name].header.capacity == o.header.capacity)
  {
  }

  /** What the name leads to can be joined or created with this capacity. */
  predicate Joinable(objects: Namespace, name: string, capacity: nat, uid: nat) {
    name in objects ==>
      && objects[name].owner == uid
      && (objects[name].size == 0 || (objects[name].size >= 24 && objects[name].header.capacity in {0, capacity}))
  }

  /** Nothing established under the name yet: no object, an empty one, or one never claimed. */
  predicate Unclaimed(objects: Namespace, name: string) {
    name in objects ==> objects[name].size == 0 || objects[name].header.capacity == 0
  }

  /**
   An attach succeeds exactly when the name is free, or its object is ours, whole, and of no
   capacity yet or of the one asked for, and no call it needs fails.
   */
  lemma AttachSucceedsIff(objects: Namespace, a: Attachment, name: string, capacity: nat, uid: nat, fault: Fault)
    requires name != "" && capacity > 0 && !Shortcut(a, name)
    ensures
      Attach(objects, a, name, capacity, uid, fault).code == 0 <==>
        && Joinable(objects, name, capacity, uid)
        && (fault == NoFault || (fault == TruncateFails && name in objects && objects[name].size > 0))
  {
  }

  /**
   What a successful attach leaves. The creator finds the segment unclaimed, and sizes it unless it
   had a size, claims it and blanks its header; anyone else leaves every object as it was. Both map
   the two buffers behind the 24-byte header.
   */
  lemma AttachedResult(objects: Namespace, a: Attachment, name: string, capacity: nat, uid: nat, fault: Fault)
    requires name != "" && capacity > 0 && !Shortcut(a, name)
    requires Attach(objects, a, name, capacity, uid, fault).code == 0
    ensures
      var r := Attach(objects, a, name, capacity, uid, fault);
      var size := if name in objects && objects[name].size > 0 then objects[name].size else 24 + 2 * capacity;
      && r.attachment == Mapped(name, Take(name, 255), capacity, Unclaimed(objects, name), size, 24, 24 + capacity)
      && name in r.objects && r.objects[name].owner == uid && r.objects[name].size == size
      && (Unclaimed(objects, name) ==> r.objects[name].header == Header(capacity, 0, 0, 0, false, 0))
      && (!Unclaimed(objects, name) ==> r.objects == objects)
      && forall other :: other != name ==>
           (other in r.objects <==> other in objects) && (other in objects ==> r.objects[other] == objects[other])
  {
    if name in objects {
      assert objects[name := objects[name]] == objects;
    }
  }

  /** A missing name or capacity is refused at once, and every failure leaves a channel that tried detached. */
  lemma FailedAttach(objects: Namespace, a: Attachment, name: string, capacity: nat, uid: nat, fault: Fault)
    ensures
      var r := Attach(objects, a, name, capacity, uid, fault);
      && (name == "" || capacity == 0 ==> r == Outcome(objects, a, -1))
      && (name != "" && capacity > 0 && r.code != 0 ==> r.attachment == Detached)
      && r.code in {0, -1, -2, -3}
  {
  }

  /**
   The refusals, exactly: -3 for another user's object, -2 for an established header with another
   capacity. Either way every object is as it was.
   */
  lemma RefusalIff(objects: Namespace, a: Attachment, name: string, capacity: nat, uid: nat)
    requires name != "" && capacity > 0 && !Shortcut(a, name)
    ensures
      var r := Attach(objects, a, name, capacity, uid, NoFault);
      && (r.code == -3 <==> name in objects && objects[name].owner != uid)
      && (r.code == -2 <==>
            && name in objects && objects[name].owner == uid && objects[name].size >= 24
            && objects[name].header.capacity !in {0, capacity})
      && (r.code == -3 || r.code == -2 ==> r.objects == objects && r.attachment == Detached)
  {
    if name in objects {
      assert objects[name := objects[name]] == objects;
    }
  }

  /** The shortcut answers before either check: a different capacity for the same name is not refused. */
  lemma ShortcutIgnoresCapacity(objects: Namespace, a: Attachment, name: string, capacity: nat, uid: nat, fault: Fault)
    requires name != "" && capacity > 0 && Shortcut(a, name)
    ensures Attach(objects, a, name, capacity, uid, fault) == Outcome(objects, a, 0)
  {
  }

  /** A fresh attach stays inside its mapping exactly when the object was empty or large enough. */
  lemma InBoundsIff(objects: Namespace, a: Attachment, name: string, capacity: nat, uid: nat, fault: Fault)
    requires !Shortcut(a, name) && Attach(objects, a, name, capacity, uid, fault).code == OK
    ensures
      var r := Attach(objects, a, name, capacity, uid, fault).attachment;
      && r.Mapped?
      && (r.buf1 + r.cap <= r.mappedSize <==>
            Opened(objects, name, uid).size == 0 || SizeFor(capacity) <= Opened(objects, name, uid).size)
  {
  }

  // ---- Agreement over whole runs ---------------------------------------------------------

  /** The channel and its segment agree, its kept name is the segment's, and its buffers are disjoint. */
  predicate Agrees(objects: Namespace, a: Attachment) {
    a.Mapped? ==>
      && a.mapped in objects && a.cap == objects[a.mapped].header.capacity > 0
      && a.mappedSize == objects[a.mapped].size > 0 && a.attachedName == KeptName(a.mapped)
      && HEADER_SIZE <= a.buf0 && a.buf0 + a.cap <= a.buf1
  }

  predicate NoBareCapacity(w: World) {
    forall name | name in w.objects && w.objects[name].header.capacity > 0 :: w.objects[name].size >= 24
  }

  ghost predicate Agreement(w: World) {
    NoBareCapacity(w) && forall i | 0 <= i < |w.channels| :: Agrees(w.objects, w.channels[i])
  }

  /** One attach: the object it was for, and the attachment it leaves. */
  lemma AttachAgrees(objects: Namespace, a: Attachment, name: string, capacity: nat, uid: nat, fault: Fault)
    requires name in objects && objects[name].header.capacity > 0 ==> objects[name].size >= 24
    requires Agrees(objects, a)
    ensures
      var r := Attach(objects, a, name, capacity, uid, fault);
      && Agrees(r.objects, r.attachment)
      && (name in r.objects && r.objects[name].header.capacity > 0 ==> r.objects[name].size >= 24)
  {
  }

  /** What an attach may do to any object at all: nothing, unless it had no size or no capacity. */
  lemma AttachKeeps(
    objects: Namespace, a: Attachment, name: string, capacity: nat, uid: nat, fault: Fault, other: string)
    ensures
      var r := Attach(objects, a, name, capacity, uid, fault);
      && (other != name ==> (other in r.objects <==> other in objects))
      && (other in objects ==> other in r.objects)
      && (other in objects && (other != name || (objects[other].size > 0 && objects[other].header.capacity > 0)) ==>
            r.objects[other] == objects[other])
  {
  }

  lemma StepAgreement(w: World, e: Event)
    requires Agreement(w)
    ensures Agreement(Step(w, e))
  {
    StepKeepsOthers(w, e);
    if e.Attempt? && e.channel < |w.channels| {
      var a := w.channels[e.channel];
      AttachAgrees(w.objects, a, e.name, e.capacity, e.uid, e.fault);
      forall name | name in Step(w, e).objects && Step(w, e).objects[name].header.capacity > 0
        ensures Step(w, e).objects[name].size >= 24
      {
        AttachKeeps(w.objects, a, e.name, e.capacity, e.uid, e.fault, name);
      }
    }
  }

  /** No step disturbs what a channel other than the acting one agrees on. */
  lemma StepKeepsOthers(w: World, e: Event)
    requires forall i | 0 <= i < |w.channels| :: Agrees(w.objects, w.channels[i])
    ensures |Step(w, e).channels| == |w.channels|
    ensures forall i | 0 <= i < |w.channels| && (e.Attempt? ==> i != e.channel) ::
              Step(w, e).channels[i] == w.channels[i] && Agrees(Step(w, e).objects, w.channels[i])
  {
    forall i | 0 <= i < |w.channels| && (e.Attempt? ==> i != e.channel)
      ensures Step(w, e).channels[i] == w.channels[i] && Agrees(Step(w, e).objects, w.channels[i])
    {
      var b := w.channels[i];
      if e.Attempt? && e.channel < |w.channels| && b.Mapped? {
        AttachKeeps(w.objects, w.channels[e.channel], e.name, e.capacity, e.uid, e.fault, b.mapped);
      }
    }
  }

  /**
   From no segments, after any attaches by any channels with any capacities, users and failures:
   every attached channel has its segment's capacity and size, keeps its segment's name, and its
   two buffers are disjoint.
   */
  lemma {:induction false} LayoutAgrees(n: nat, events: seq<Event>)
    ensures Agreement(Run(Empty(n), events))
    decreases |events|
  {
    if events != [] {
      LayoutAgrees(n, events[..|events| - 1]);
      StepAgreement(Run(Empty(n), events[..|events| - 1]), events[|events| - 1]);
    }
  }

  /**
   Joining works: at any point of any run a channel of the same user that asks for an established
   segment with its capacity gets it, as a later attacher, and disturbs nothing.
   */
  lemma {:induction false} JoiningSucceeds(n: nat, events: seq<Event>, a: Attachment, name: string, uid: nat)
    requires !Shortcut(a, name) && name != ""
    requires
      var w := Run(Empty(n), events);
      name in w.objects && w.objects[name].owner == uid && w.objects[name].header.capacity > 0
    ensures
      var w := Run(Empty(n), events);
      var o := w.objects[name];
      var c := o.header.capacity;
      Attach(w.objects, a, name, c, uid, NoFault) ==
        Outcome(w.objects, Mapped(name, Take(name, 255), c, false, o.size, 24, 24 + c), 0)
  {
    LayoutAgrees(n, events);
    var w := Run(Empty(n), events);
    AttachSucceedsIff(w.objects, a, name, w.objects[name].header.capacity, uid, NoFault);
    AttachedResult(w.objects, a, name, w.objects[name].header.capacity, uid, NoFault);
  }

  /**
   At any point of any run a successful attach is to the object asked for, except exactly when the
   kept copy of a longer attached name, of 256 or more characters, stands in for it.
   */
  lemma {:induction false} AttachedToTheNameAsked(
    n: nat, events: seq<Event>, i: nat, name: string, capacity: nat, uid: nat, fault: Fault)
    requires i < |Run(Empty(n), events).channels|
    ensures
      var w := Run(Empty(n), events);
      var a, r := w.channels[i], Attach(w.objects, w.channels[i], name, capacity, uid, fault);
      r.code == OK ==>
        && r.attachment.Mapped?
        && (r.attachment.mapped == name <==> !(a.Mapped? && |a.mapped| >= 256 && Take(a.mapped, 255) == name))
  {
    LayoutAgrees(n, events);
    var w := Run(Empty(n), events);
    NamedByItsCopy(w.objects, w.channels[i], name, capacity, uid, fault);
  }

  lemma NamedByItsCopy(objects: Namespace, a: Attachment, name: string, capacity: nat, uid: nat, fault: Fault)
    requires a.Mapped? ==> a.attachedName == KeptName(a.mapped)
    ensures
      var r := Attach(objects, a, name, capacity, uid, fault);
      r.code == OK ==>
        && r.attachment.Mapped?
        && (r.attachment.mapped == name <==> !(a.Mapped? && |a.mapped| >= 256 && Take(a.mapped, 255) == name))
  {
    if Shortcut(a, name) {
      assert |a.mapped| < NAME_ROOM ==> KeptName(a.mapped) == a.mapped;
      assert |KeptName(a.mapped)| <= NAME_ROOM - 1;
    } else if a.Mapped? {
      assert KeptName(a.mapped) != name;
    }
  }

  // ---- Exactly when the buffers stay inside the mapping ----------------------------------

  predicate InBounds(a: Attachment) {
    a.Mapped? ==> a.buf1 + a.cap <= a.mappedSize
  }

  predicate AllInBounds(w: World) {
    forall i | 0 <= i < |w.channels| :: InBounds(w.channels[i])
  }

  /** The attach claims an object that has a size but no capacity yet, and is too small for it. */
  predicate ClaimsSmall(w: World, e: Event) {
    && e.Attempt? && e.channel < |w.channels| && !Shortcut(w.channels[e.channel], e.name)
    && Attach(w.objects, w.channels[e.channel], e.name, e.capacity, e.uid, e.fault).code == OK
    && Opened(w.objects, e.name, e.uid).header.capacity == 0
    && 0 < Opened(w.objects, e.name, e.uid).size < SizeFor(e.capacity)
  }

  predicate NeverClaimsSmall(w: World, events: seq<Event>)
    decreases |events|
  {
    events == [] ||
    (var n := |events| - 1;
     NeverClaimsSmall(w, events[..n]) && !ClaimsSmall(Run(w, events[..n]), events[n]))
  }

  ghost predicate StaysInBounds(w: World, events: seq<Event>) {
    forall k: nat | k <= |events| :: AllInBounds(Run(w, events[..k]))
  }

  /** Every established segment has room for its own capacity. */
  ghost predicate Roomy(w: World) {
    && AllInBounds(w)
    && forall name | name in w.objects && w.objects[name].header.capacity > 0 ::
         SizeFor(w.objects[name].header.capacity) <= w.objects[name].size
  }

  lemma AttachRoomy(objects: Namespace, a: Attachment, name: string, capacity: nat, uid: nat, fault: Fault)
    requires InBounds(a)
    requires
      name in objects && objects[name].header.capacity > 0 ==>
        SizeFor(objects[name].header.capacity) <= objects[name].size
    requires
      var o := Opened(objects, name, uid);
      || Shortcut(a, name) || Attach(objects, a, name, capacity, uid, fault).code != OK
      || o.header.capacity != 0 || o.size == 0 || SizeFor(capacity) <= o.size
    ensures
      var r := Attach(objects, a, name, capacity, uid, fault);
      && InBounds(r.attachment)
      && (name in r.objects && r.objects[name].header.capacity > 0 ==>
            SizeFor(r.objects[name].header.capacity) <= r.objects[name].size)
  {
  }

  lemma StepRoomy(w: World, e: Event)
    requires Roomy(w) && !ClaimsSmall(w, e)
    ensures Roomy(Step(w, e))
  {
    if e.Attempt? && e.channel < |w.channels| {
      var a := w.channels[e.channel];
      AttachRoomy(w.objects, a, e.name, e.capacity, e.uid, e.fault);
      forall name | name in Step(w, e).objects && Step(w, e).objects[name].header.capacity > 0
        ensures SizeFor(Step(w, e).objects[name].header.capacity) <= Step(w, e).objects[name].size
      {
        AttachKeeps(w.objects, a, e.name, e.capacity, e.uid, e.fault, name);
      }
    }
  }

  lemma SmallClaimOverflows(w: World, e: Event)
    requires ClaimsSmall(w, e)
    ensures !AllInBounds(Step(w, e))
  {
    assert !InBounds(Step(w, e).channels[e.channel]);
  }

  lemma {:induction false} NeverSmallIsRoomy(n: nat, events: seq<Event>)
    requires NeverClaimsSmall(Empty(n), events)
    ensures Roomy(Run(Empty(n), events)) && StaysInBounds(Empty(n), events)
    decreases |events|
  {
    if events != [] {
      var init := events[..|events| - 1];
      NeverSmallIsRoomy(n, init);
      StepRoomy(Run(Empty(n), init), events[|events| - 1]);
    }
    forall k: nat | k <= |events|
      ensures AllInBounds(Run(Empty(n), events[..k]))
    {
      if k < |events| {
        assert events[..|events| - 1][..k] == events[..k];
      } else {
        assert events[..k] == events;
      }
    }
  }

  lemma {:induction false} InBoundsNeverSmall(n: nat, events: seq<Event>)
    requires StaysInBounds(Empty(n), events)
    ensures NeverClaimsSmall(Empty(n), events)
    decreases |events|
  {
    if events != [] {
      var m := |events| - 1;
      forall k: nat | k <= m
        ensures AllInBounds(Run(Empty(n), events[..m][..k]))
      {
        assert events[..m][..k] == events[..k];
      }
      InBoundsNeverSmall(n, events[..m]);
      assert events[..|events|] == events;
      if ClaimsSmall(Run(Empty(n), events[..m]), events[m]) {
        SmallClaimOverflows(Run(Empty(n), events[..m]), events[m]);
      }
    }
  }

  /**
   Along a run every attachment keeps both buffers inside its mapping if and only if no attach
   claims an object that was sized, but never claimed, for a smaller capacity.
   */
  lemma {:induction false} BoundsIff(n: nat, events: seq<Event>)
    ensures StaysInBounds(Empty(n), events) <==> NeverClaimsSmall(Empty(n), events)
  {
    if NeverClaimsSmall(Empty(n), events) {
      NeverSmallIsRoomy(n, events);
    }
    if StaysInBounds(Empty(n), events) {
      InBoundsNeverSmall(n, events);
    }
  }

  /** An attach that fails between sizing and claiming leaves such an object; a larger attach then overflows. */
  lemma CutCreationOverflows(name: string, small: nat, large: nat, uid: nat)
    requires name != "" && 0 < small < large
    ensures
      var w := Run(Empty(1), [Attempt(0, name, small, uid, MapFails), Attempt(0, name, large, uid, NoFault)]);
      |w.channels| == 1 && var a := w.channels[0];
      a.Mapped? && a.cap == large && a.buf1 + a.cap > a.mappedSize
  {
    var e1, e2 := Attempt(0, name, small, uid, MapFails), Attempt(0, name, large, uid, NoFault);
    RunOfTwo(Empty(1), e1, e2);
    var w1 := Step(Empty(1), e1);
    assert w1.channels == [Detached] && w1.objects == map[name := Object(uid, SizeFor(small), BLANK, Zeros(2 * small))];
  }

  lemma RunOfTwo(w: World, e1: Event, e2: Event)
    ensures Run(w, [e1, e2]) == Step(Step(w, e1), e2)
  {
    var none: seq<Event>, one, two := [], [e1], [e1, e2];
    assert one[..0] == none && two[..1] == one;
    assert Run(w, none) == w;
    assert Run(w, one) == Step(w, e1);
  }

  // ---- One capacity per name -------------------------------------------------------------

  /** Untouched, sized but unclaimed, or claimed: always for the capacity everyone uses. */
  predicate SizedFor(o: Object, capacity: nat) {
    || (o.size == 0 && o.header.capacity == 0)
    || (o.size == SizeFor(capacity) && o.header.capacity in {0, capacity} && |o.data| == 2 * capacity)
  }

  ghost predicate AgreedWorld(w: World, capacityOf: string -> nat) {
    forall name | name in w.objects :: SizedFor(w.objects[name], capacityOf(name))
  }

  lemma AttachSized(objects: Namespace, a: Attachment, name: string, capacity: nat, uid: nat, fault: Fault)
    requires name in objects ==> SizedFor(objects[name], capacity)
    ensures
      var r := Attach(objects, a, name, capacity, uid, fault);
      name in r.objects ==> SizedFor(r.objects[name], capacity)
  {
  }

  lemma StepAgreed(w: World, e: Event, capacityOf: string -> nat)
    requires AgreedWorld(w, capacityOf) && (e.Attempt? ==> e.capacity == capacityOf(e.name))
    ensures AgreedWorld(Step(w, e), capacityOf) && !ClaimsSmall(w, e)
  {
    if e.Attempt? && e.channel < |w.channels| {
      var a := w.channels[e.channel];
      AttachSized(w.objects, a, e.name, e.capacity, e.uid, e.fault);
      forall name | name in Step(w, e).objects
        ensures SizedFor(Step(w, e).objects[name], capacityOf(name))
      {
        AttachKeeps(w.objects, a, e.name, e.capacity, e.uid, e.fault, name);
      }
    }
  }

  lemma {:induction false} OneCapacityIsNeverSmall(n: nat, events: seq<Event>, capacityOf: string -> nat)
    requires forall e | e in events && e.Attempt? :: e.capacity == capacityOf(e.name)
    ensures AgreedWorld(Run(Empty(n), events), capacityOf) && NeverClaimsSmall(Empty(n), events)
    decreases |events|
  {
    if events != [] {
      OneCapacityIsNeverSmall(n, events[..|events| - 1], capacityOf);
      StepAgreed(Run(Empty(n), events[..|events| - 1]), events[|events| - 1], capacityOf);
    }
  }

  /** When every attach of a name uses the same capacity, no buffer ever leaves its mapping, whatever calls fail. */
  lemma {:induction false} LayoutAgreesWithOneCapacity(n: nat, events: seq<Event>, capacityOf: string -> nat)
    requires forall e | e in events && e.Attempt? :: e.capacity == capacityOf(e.name)
    ensures AgreedWorld(Run(Empty(n), events), capacityOf) && StaysInBounds(Empty(n), events)
  {
    OneCapacityIsNeverSmall(n, events, capacityOf);
    NeverSmallIsRoomy(n, events);
  }

  // ---- Exactly one creator ---------------------------------------------------------------

  function Births(w: World, name: string): nat {
    multiset(w.births)[name]
  }

  predicate Claimed(w: World, name: string) {
    name in w.objects && w.objects[name].header.capacity > 0 && w.objects[name].size > 0
  }

  /** An attach claims a name just when it reports having created it. */
  lemma AttachClaims(objects: Namespace, a: Attachment, name: string, capacity: nat, uid: nat, fault: Fault)
    requires name in objects && objects[name].header.capacity > 0 ==> objects[name].size >= 24
    ensures
      var r := Attach(objects, a, name, capacity, uid, fault);
      var born := r.code == OK && !Shortcut(a, name) && r.attachment.Mapped? && r.attachment.creator;
      var before := name in objects && objects[name].header.capacity > 0;
      var after := name in r.objects && r.objects[name].header.capacity > 0;
      && (born <==> !before && after) && (before ==> after)
      && (after ==> r.objects[name].size >= 24)
  {
  }

  lemma StepBirths(w: World, e: Event, name: string)
    requires NoBareCapacity(w) && Births(w, name) == if Claimed(w, name) then 1 else 0
    ensures NoBareCapacity(Step(w, e)) && Births(Step(w, e), name) == if Claimed(Step(w, e), name) then 1 else 0
  {
    if e.Attempt? && e.channel < |w.channels| {
      var a := w.channels[e.channel];
      AttachClaims(w.objects, a, e.name, e.capacity, e.uid, e.fault);
      forall other ensures other != e.name ==>
          (other in Step(w, e).objects <==> other in w.objects)
          && (other in w.objects ==> Step(w, e).objects[other] == w.objects[other])
      {
        AttachKeeps(w.objects, a, e.name, e.capacity, e.uid, e.fault, other);
      }
    }
  }

  /** Over any run exactly one attach per claimed segment reports that it created it. */
  lemma {:induction false} OneCreatorPerSegment(n: nat, events: seq<Event>, name: string)
    ensures
      var w := Run(Empty(n), events);
      NoBareCapacity(w) && Births(w, name) == if Claimed(w, name) then 1 else 0
    decreases |events|
  {
    if events != [] {
      OneCreatorPerSegment(n, events[..|events| - 1], name);
      StepBirths(Run(Empty(n), events[..|events| - 1]), events[|events| - 1], name);
    }
  }
}
