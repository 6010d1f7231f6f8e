/** The cone–sphere contact tracker: per tracked sphere the set of cones
    touching it, a colour that shows whether any cone touches it, a start time
    per contact keyed by the pair's names, a running count of contacts begun,
    and the rows handed to the study recorder. The engine clock and the
    recorder's current exposure value are parameters of the event methods. */
module ConeSphere {
  import opened Scene

  /** The two colours a sphere's material is given. */
  datatype SphereColor = OriginalColor | CollisionColor

  datatype EventKind = CollisionStart | CollisionEnd

  /** One row handed to the recorder: event, pair, recorder time, current
      exposure value and contact duration (0 for a start). */
  datatype CollisionRecord =
    CollisionRecord(kind: EventKind, cone: ObjectId, sphere: ObjectId, time: real, pm25: real, duration: real)

  type Contacts = map<ObjectId, set<ObjectId>>

  /** The colour a sphere shows for a given set of touching cones. */
  function ColorFor(cones: set<ObjectId>): SphereColor {
    if cones == {} then OriginalColor else CollisionColor
  }

  /** The spheres some cone touches. */
  function BusySpheres(contacts: Contacts): (r: set<ObjectId>)
    ensures r <= contacts.Keys
    ensures forall s :: s in contacts ==> (s in r <==> contacts[s] != {})
  {
    set s | s in contacts && contacts[s] != {}
  }

  /** The contact sets after `cone` starts touching `sphere`; a sphere that is
      not tracked is ignored. */
  function Touched(contacts: Contacts, cone: ObjectId, sphere: ObjectId): (r: Contacts)
    ensures r.Keys == contacts.Keys
    ensures forall s :: s in r && s != sphere ==> r[s] == contacts[s]
    ensures sphere in r ==> cone in r[sphere] && r[sphere] - {cone} == contacts[sphere] - {cone}
  {
    if sphere in contacts then contacts[sphere := contacts[sphere] + {cone}] else contacts
  }

  /** The contact sets after `cone` stops touching `sphere`. */
  function Released(contacts: Contacts, cone: ObjectId, sphere: ObjectId): (r: Contacts)
    ensures r.Keys == contacts.Keys
    ensures forall s :: s in r && s != sphere ==> r[s] == contacts[s]
    ensures sphere in r ==> cone !in r[sphere] && r[sphere] + {cone} == contacts[sphere] + {cone}
  {
    if sphere in contacts then contacts[sphere := contacts[sphere] - {cone}] else contacts
  }

  /** A contact that starts and then ends leaves the sets as they were, when the
      cone was not touching before. */
  lemma TouchReleaseRoundTrip(contacts: Contacts, cone: ObjectId, sphere: ObjectId)
    requires sphere in contacts ==> cone !in contacts[sphere]
    ensures Released(Touched(contacts, cone, sphere), cone, sphere) == contacts
  {
    if sphere in contacts {
      assert Released(Touched(contacts, cone, sphere), cone, sphere)[sphere] == contacts[sphere];
    }
  }

  /** A repeated start or a repeated end changes nothing. */
  lemma TouchReleaseIdempotent(contacts: Contacts, cone: ObjectId, sphere: ObjectId)
    ensures Touched(Touched(contacts, cone, sphere), cone, sphere) == Touched(contacts, cone, sphere)
    ensures Released(Released(contacts, cone, sphere), cone, sphere) == Released(contacts, cone, sphere)
  {
    var t := Touched(contacts, cone, sphere);
    var u := Touched(t, cone, sphere);
    if sphere in contacts {
      assert u[sphere] == t[sphere];
      assert Released(Released(contacts, cone, sphere), cone, sphere)[sphere] == Released(contacts, cone, sphere)[sphere];
    }
  }

  /** A start makes a tracked sphere busy and leaves the other spheres' state
      alone; an end frees the sphere exactly when its last cone leaves. */
  lemma BusySpheresAfterEvents(contacts: Contacts, cone: ObjectId, sphere: ObjectId)
    requires sphere in contacts
    ensures BusySpheres(Touched(contacts, cone, sphere)) == BusySpheres(contacts) + {sphere}
    ensures BusySpheres(Released(contacts, cone, sphere))
            == if contacts[sphere] - {cone} == {} then BusySpheres(contacts) - {sphere} else BusySpheres(contacts) + {sphere}
  {
    var t := Touched(contacts, cone, sphere);
    var r := Released(contacts, cone, sphere);
    assert forall s :: s in BusySpheres(t) <==> s in BusySpheres(contacts) + {sphere};
    assert r[sphere] == contacts[sphere] - {cone};
    if contacts[sphere] - {cone} == {} {
      assert forall s :: s in BusySpheres(r) <==> s in BusySpheres(contacts) - {sphere};
    } else {
      assert forall s :: s in BusySpheres(r) <==> s in BusySpheres(contacts) + {sphere};
    }
  }

  /** The start-time key `cone.name + "_" + sphere.name`. */
  function PairKey(coneName: string, sphereName: string): string
  {
    coneName + "_" + sphereName
  }

  /** The key does not tell pairs apart when names contain the separator:
      cone "a_b" on sphere "c" and cone "a" on sphere "b_c" share a key, so one
      pair's end consumes the other's start time. */
  lemma PairKeysCanCollide()
    ensures "a_b" != "a" && PairKey("a_b", "c") == PairKey("a", "b_c")
  {
    assert PairKey("a_b", "c") == "a_b_c";
    assert PairKey("a", "b_c") == "a_b_c";
  }

  class CollisionManager {
    /** The tracked spheres, in inspector order. */
    const spheres: seq<ObjectId>
    /** Each object's `name`. */
    const nameOf: ObjectId -> string
    /** Whether a study interface was found at start; the event methods
        dereference it. */
    const recorderAssigned: bool

    var sphereActiveCollisions: Contacts
    var sphereColors: map<ObjectId, SphereColor>
    var collisionStartTimes: map<string, real>
    var totalCollisionCount: int
    /** The rows handed to the recorder, oldest first. */
    var records: seq<CollisionRecord>

    ghost const tracked: set<ObjectId> := set s | s in spheres

    /** Every tracked sphere has a contact set and a colour, the colour shows
        whether the set is empty, and the contact count is not negative. */
    ghost predicate Valid()
      reads this`sphereActiveCollisions, this`sphereColors, this`totalCollisionCount
    {
      && sphereActiveCollisions.Keys == tracked
      && sphereColors.Keys == tracked
      && (forall s :: s in tracked ==> sphereColors[s] == ColorFor(sphereActiveCollisions[s]))
      && totalCollisionCount >= 0
    }

    /** `Start`: every tracked sphere starts uncoloured with no contacts. */
    constructor Start(spheres: seq<ObjectId>, nameOf: ObjectId -> string, recorderAssigned: bool)
      ensures Valid()
      ensures this.spheres == spheres && this.nameOf == nameOf && this.recorderAssigned == recorderAssigned
      ensures forall s :: s in tracked ==> sphereActiveCollisions[s] == {} && sphereColors[s] == OriginalColor
      ensures collisionStartTimes == map[] && totalCollisionCount == 0 && records == []
    {
      this.spheres := spheres;
      this.nameOf := nameOf;
      this.recorderAssigned := recorderAssigned;
      var contacts: Contacts := map[];
      var colors: map<ObjectId, SphereColor> := map[];
      var i := 0;
      while i < |spheres|
        invariant 0 <= i <= |spheres|
        invariant forall j :: 0 <= j < i ==> spheres[j] in contacts
        invariant forall s :: s in contacts ==> s in spheres && contacts[s] == {}
        invariant colors.Keys == contacts.Keys
        invariant forall s :: s in colors ==> colors[s] == OriginalColor
      {
        contacts := contacts[spheres[i] := {}];
        colors := colors[spheres[i] := OriginalColor];
        i := i + 1;
      }
      sphereActiveCollisions := contacts;
      sphereColors := colors;
      collisionStartTimes := map[];
      totalCollisionCount := 0;
      records := [];
    }

    /** `OnConeCollidedWithSphere` at recorder time `now`, with the recorder's
        mode and exposure value. */
    method OnConeCollidedWithSphere(cone: ObjectId, sphere: ObjectId, now: real, studyMode: bool, pm25: real)
      requires Valid()
      requires sphere in tracked && cone !in sphereActiveCollisions[sphere] ==> recorderAssigned
      modifies this`sphereActiveCollisions, this`sphereColors, this`collisionStartTimes,
               this`totalCollisionCount, this`records
      ensures Valid()
      ensures sphereActiveCollisions == Touched(old(sphereActiveCollisions), cone, sphere)
      ensures sphere !in tracked || cone in old(sphereActiveCollisions[sphere]) ==>
                && sphereColors == old(sphereColors) && collisionStartTimes == old(collisionStartTimes)
                && totalCollisionCount == old(totalCollisionCount) && records == old(records)
      ensures sphere in tracked && cone !in old(sphereActiveCollisions[sphere]) ==>
                && sphereColors == old(sphereColors)[sphere := CollisionColor]
                && (sphereColors[sphere] != old(sphereColors[sphere]) <==> old(sphereActiveCollisions[sphere]) == {})
                && collisionStartTimes == old(collisionStartTimes)[PairKey(nameOf(cone), nameOf(sphere)) := now]
                && totalCollisionCount == old(totalCollisionCount) + 1
                && records == old(records) + (if studyMode then [CollisionRecord(CollisionStart, cone, sphere, now, pm25, 0.0)] else [])
    {
      if sphere !in spheres {
        return;
      }
      if cone !in sphereActiveCollisions[sphere] {
        AddContact(cone, sphere);
        RecordStart(cone, sphere, now, studyMode, pm25);
      } else {
        assert sphereActiveCollisions[sphere] + {cone} == sphereActiveCollisions[sphere];
        assert sphereActiveCollisions[sphere := sphereActiveCollisions[sphere] + {cone}] == sphereActiveCollisions;
      }
    }

    /** The contact half of `OnConeCollidedWithSphere` for a new cone: the cone
        joins the sphere's set, which takes the contact colour when it becomes a
        singleton. */
    method AddContact(cone: ObjectId, sphere: ObjectId)
      requires Valid() && sphere in tracked && cone !in sphereActiveCollisions[sphere]
      modifies this`sphereActiveCollisions, this`sphereColors
      ensures Valid()
      ensures sphereActiveCollisions == old(sphereActiveCollisions)[sphere := old(sphereActiveCollisions[sphere]) + {cone}]
      ensures sphereColors == old(sphereColors)[sphere := CollisionColor]
      ensures sphereColors[sphere] != old(sphereColors[sphere]) <==> old(sphereActiveCollisions[sphere]) == {}
    {
      FirstContact(sphereActiveCollisions[sphere], cone);
      var cones := sphereActiveCollisions[sphere] + {cone};
      sphereActiveCollisions := sphereActiveCollisions[sphere := cones];
      if |cones| == 1 {
        sphereColors := sphereColors[sphere := CollisionColor];
      }
    }

    /** The bookkeeping half of `OnConeCollidedWithSphere` for a new cone: the
        pair's start time, the contact count and the start row. */
    method RecordStart(cone: ObjectId, sphere: ObjectId, now: real, studyMode: bool, pm25: real)
      modifies this`collisionStartTimes, this`totalCollisionCount, this`records
      ensures collisionStartTimes == old(collisionStartTimes)[PairKey(nameOf(cone), nameOf(sphere)) := now]
      ensures totalCollisionCount == old(totalCollisionCount) + 1
      ensures records == old(records) + (if studyMode then [CollisionRecord(CollisionStart, cone, sphere, now, pm25, 0.0)] else [])
    {
      collisionStartTimes := collisionStartTimes[PairKey(nameOf(cone), nameOf(sphere)) := now];
      totalCollisionCount := totalCollisionCount + 1;
      if studyMode {
        records := records + [CollisionRecord(CollisionStart, cone, sphere, now, pm25, 0.0)];
      }
    }

    /** `OnConeStoppedCollidingWithSphere` at recorder time `now`; `duration` is
        the contact time written into the end row (0 when nothing is recorded). */
    method OnConeStoppedCollidingWithSphere(cone: ObjectId, sphere: ObjectId, now: real, studyMode: bool, pm25: real)
      returns (duration: real)
      requires Valid()
      requires sphere in tracked && cone in sphereActiveCollisions[sphere] ==> recorderAssigned
      modifies this`sphereActiveCollisions, this`sphereColors, this`collisionStartTimes, this`records
      ensures Valid()
      ensures sphereActiveCollisions == Released(old(sphereActiveCollisions), cone, sphere)
      ensures sphere !in tracked || cone !in old(sphereActiveCollisions[sphere]) ==>
                && sphereColors == old(sphereColors) && collisionStartTimes == old(collisionStartTimes)
                && records == old(records) && duration == 0.0
      ensures sphere in tracked && cone in old(sphereActiveCollisions[sphere]) ==>
                var key := PairKey(nameOf(cone), nameOf(sphere));
                && sphereColors == old(sphereColors)[sphere := ColorFor(sphereActiveCollisions[sphere])]
                && (sphereColors[sphere] != old(sphereColors[sphere]) <==> sphereActiveCollisions[sphere] == {})
                && duration == (if key in old(collisionStartTimes) then now - old(collisionStartTimes[key]) else 0.0)
                && collisionStartTimes == old(collisionStartTimes) - {key}
                && records == old(records) + (if studyMode then [CollisionRecord(CollisionEnd, cone, sphere, now, pm25, duration)] else [])
      ensures totalCollisionCount == old(totalCollisionCount)
    {
      duration := 0.0;
      if sphere !in spheres {
        return;
      }
      if cone in sphereActiveCollisions[sphere] {
        RemoveContact(cone, sphere);
        duration := RecordEnd(cone, sphere, now, studyMode, pm25);
      } else {
        assert sphereActiveCollisions[sphere] - {cone} == sphereActiveCollisions[sphere];
        assert sphereActiveCollisions[sphere := sphereActiveCollisions[sphere] - {cone}] == sphereActiveCollisions;
      }
    }

    /** The contact half of `OnConeStoppedCollidingWithSphere` for a touching
        cone: the cone leaves the sphere's set, which gets its original colour
        back when it becomes empty. */
    method RemoveContact(cone: ObjectId, sphere: ObjectId)
      requires Valid() && sphere in tracked && cone in sphereActiveCollisions[sphere]
      modifies this`sphereActiveCollisions, this`sphereColors
      ensures Valid()
      ensures sphereActiveCollisions == old(sphereActiveCollisions)[sphere := old(sphereActiveCollisions[sphere]) - {cone}]
      ensures sphereColors == old(sphereColors)[sphere := ColorFor(sphereActiveCollisions[sphere])]
      ensures sphereColors[sphere] != old(sphereColors[sphere]) <==> sphereActiveCollisions[sphere] == {}
    {
      var cones := sphereActiveCollisions[sphere] - {cone};
      sphereActiveCollisions := sphereActiveCollisions[sphere := cones];
      if |cones| == 0 {
        sphereColors := sphereColors[sphere := OriginalColor];
      }
    }

    /** The bookkeeping half of `OnConeStoppedCollidingWithSphere` for a
        touching cone: the pair's start time is consumed into `duration` (0
        when the key is missing) and the end row is recorded. */
    method RecordEnd(cone: ObjectId, sphere: ObjectId, now: real, studyMode: bool, pm25: real)
      returns (duration: real)
      modifies this`collisionStartTimes, this`records
      ensures var key := PairKey(nameOf(cone), nameOf(sphere));
              && duration == (if key in old(collisionStartTimes) then now - old(collisionStartTimes[key]) else 0.0)
              && collisionStartTimes == old(collisionStartTimes) - {key}
      ensures records == old(records) + (if studyMode then [CollisionRecord(CollisionEnd, cone, sphere, now, pm25, duration)] else [])
    {
      duration := 0.0;
      var key := PairKey(nameOf(cone), nameOf(sphere));
      if key in collisionStartTimes {
        duration := now - collisionStartTimes[key];
        collisionStartTimes := collisionStartTimes - {key};
      }
      if studyMode {
        records := records + [CollisionRecord(CollisionEnd, cone, sphere, now, pm25, duration)];
      }
    }

    /** `GetCollisionCount`: the number of cones touching `sphere`. */
    function GetCollisionCount(sphere: ObjectId): (n: nat)
      reads this
      ensures sphere !in sphereActiveCollisions ==> n == 0
      ensures n == 0 <==> sphere !in BusySpheres(sphereActiveCollisions)
    {
      if sphere in sphereActiveCollisions then |sphereActiveCollisions[sphere]| else 0
    }

    /** `IsSphereBeingCollided`: some cone touches `sphere`, which is exactly
        when a tracked sphere shows the contact colour. */
    function IsSphereBeingCollided(sphere: ObjectId): (r: bool)
      reads this
      ensures r <==> GetCollisionCount(sphere) > 0
      ensures Valid() ==> (r <==> sphere in tracked && sphereColors[sphere] == CollisionColor)
    {
      sphere in sphereActiveCollisions && |sphereActiveCollisions[sphere]| > 0
    }

    /** `GetActiveCollisionSphereCount`: the number of busy spheres, counted by
        a pass over the contact map's keys. */
    method GetActiveCollisionSphereCount() returns (count: nat)
      ensures count == |BusySpheres(sphereActiveCollisions)|
      ensures count <= |sphereActiveCollisions|
    {
      var contacts := sphereActiveCollisions;
      ghost var busy := BusySpheres(contacts);
      count := 0;
      var remaining := contacts.Keys;
      ghost var visited: set<ObjectId> := {};
      while remaining != {}
        invariant remaining <= contacts.Keys && visited <= contacts.Keys
        invariant forall k :: k in contacts ==> (k in remaining <==> k !in visited)
        invariant count == |busy * visited|
        decreases |remaining|
      {
        var sphere :| sphere in remaining;
        CountStep(busy, visited, sphere);
        if |contacts[sphere]| > 0 {
          count := count + 1;
        }
        remaining := remaining - {sphere};
        visited := visited + {sphere};
      }
      assert busy * visited == busy;
      SubsetCardinality(busy, contacts.Keys);
    }

    /** `ResetAllSpheres`: every contact set emptied, every sphere uncoloured,
        start times cleared and the contact count zeroed. */
    method ResetAllSpheres()
      requires Valid()
      modifies this`sphereActiveCollisions, this`sphereColors, this`collisionStartTimes, this`totalCollisionCount
      ensures Valid()
      ensures forall s :: s in tracked ==> sphereActiveCollisions[s] == {} && sphereColors[s] == OriginalColor
      ensures BusySpheres(sphereActiveCollisions) == {}
      ensures collisionStartTimes == map[] && totalCollisionCount == 0
    {
      var i := 0;
      while i < |spheres|
        invariant 0 <= i <= |spheres|
        invariant sphereActiveCollisions.Keys == tracked && sphereColors.Keys == tracked
        invariant forall s :: s in tracked ==> sphereColors[s] == ColorFor(sphereActiveCollisions[s])
        invariant forall j :: 0 <= j < i ==> sphereActiveCollisions[spheres[j]] == {}
      {
        var sphere := spheres[i];
        sphereActiveCollisions := sphereActiveCollisions[sphere := {}];
        sphereColors := sphereColors[sphere := OriginalColor];
        i := i + 1;
      }
      collisionStartTimes := map[];
      totalCollisionCount := 0;
    }
  }

  /** A new cone makes a set a singleton exactly when the set was empty. */
  lemma FirstContact(cones: set<ObjectId>, cone: ObjectId)
    requires cone !in cones
    ensures |cones + {cone}| == 1 <==> cones == {}
  {
    if cones != {} {
      var c :| c in cones;
      SubsetCardinality({c, cone}, cones + {cone});
    }
  }

  /** Visiting one more key adds one to the count exactly when it is busy. */
  lemma CountStep(busy: set<ObjectId>, visited: set<ObjectId>, s: ObjectId)
    requires s !in visited
    ensures |busy * (visited + {s})| == |busy * visited| + (if s in busy then 1 else 0)
  {
    if s in busy {
      assert busy * (visited + {s}) == busy * visited + {s};
    } else {
      assert busy * (visited + {s}) == busy * visited;
    }
  }

  lemma SubsetCardinality(a: set<ObjectId>, b: set<ObjectId>)
    requires a <= b
    ensures |a| <= |b|
  {
    assert b == a + (b - a);
  }
}
