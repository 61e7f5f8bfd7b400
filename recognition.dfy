/**
 * One pass of the recognition loop over the faces of a frame: match each
 * face's encoding against the cache, register attendance for every match,
 * collect one label per face, then scale each box back to full resolution and
 * pick its colour. Face detection, encoding and distance computation belong
 * to the face library; encodings arrive as `probes` and `distance` is the
 * library's metric. Each ledger call reads the clock; those readings arrive
 * as `stamps`, one per face.
 */
module Recognition {
  import opened Wrappers
  import opened Store
  import opened Matcher
  import opened Ledger

  /** A face location `(top, right, bottom, left)` in pixels. */
  datatype Box = Box(top: int, right: int, bottom: int, left: int)

  /** One clock reading: the day (`%Y-%m-%d`) and the full timestamp (`%Y-%m-%d %H:%M:%S`). */
  datatype Stamp = Stamp(dateStr: string, timestamp: string)

  /** One `register_attendance` call. */
  datatype Sighting = Sighting(studentId: string, at: Stamp)

  /** A colour in OpenCV's blue-green-red order. */
  datatype Colour = Colour(blue: int, green: int, red: int)

  /** What is drawn for one face: its box, the filled band under it and the label text. */
  datatype Overlay = Overlay(box: Box, colour: Colour, band: Box, caption: string, textX: int, textY: int)

  const UnknownLabel: string := "Unknown"
  const Recognised: Colour := Colour(0, 255, 0)
  const Unrecognised: Colour := Colour(0, 0, 255)
  /** Detection runs on a frame shrunk to a quarter of each side. */
  const ScaleFactor: int := 4
  /** Height of the filled label band at the bottom of a box. */
  const BandHeight: int := 35
  /** Offset of the label text from the box's left and bottom edges. */
  const TextInset: int := 6

  /** The cached encodings, in cache order. */
  function EncodingsOf(profiles: seq<Profile>): seq<Encoding>
  {
    seq(|profiles|, i requires 0 <= i < |profiles| => profiles[i].encoding)
  }

  /** `face_distance`: the distance from each known encoding to the probe. */
  function Distances(known: seq<Encoding>, probe: Encoding, distance: (Encoding, Encoding) -> real): seq<real>
  {
    seq(|known|, i requires 0 <= i < |known| => distance(known[i], probe))
  }

  /** The match decision for one face. */
  function MatchOf(profiles: seq<Profile>, probe: Encoding, distance: (Encoding, Encoding) -> real): (d: Decision)
    ensures d.Match? ==> d.index < |profiles|
  {
    Decide(Distances(EncodingsOf(profiles), probe, distance))
  }

  /** The label shown for one face. */
  function LabelOf(profiles: seq<Profile>, probe: Encoding, distance: (Encoding, Encoding) -> real): string
  {
    match MatchOf(profiles, probe, distance)
    case Match(k) => profiles[k].name
    case NoMatch => UnknownLabel
  }

  /** The student id passed to the ledger for one face, if any. */
  function SightedId(profiles: seq<Profile>, probe: Encoding, distance: (Encoding, Encoding) -> real): Option<string>
  {
    match MatchOf(profiles, probe, distance)
    case Match(k) => Some(profiles[k].id)
    case NoMatch => None
  }

  /** The labels of a frame, one per face in face order. */
  function FrameLabels(profiles: seq<Profile>, probes: seq<Encoding>, distance: (Encoding, Encoding) -> real): seq<string>
  {
    seq(|probes|, i requires 0 <= i < |probes| => LabelOf(profiles, probes[i], distance))
  }

  /** The student id passed to the ledger for each face of a frame, in face order. */
  function FaceIds(profiles: seq<Profile>, probes: seq<Encoding>, distance: (Encoding, Encoding) -> real): seq<Option<string>>
  {
    seq(|probes|, i requires 0 <= i < |probes| => SightedId(profiles, probes[i], distance))
  }

  /** The ledger call for one face: none, or one with the matched id and the face's clock reading. */
  function CallFor(id: Option<string>, stamp: Stamp): seq<Sighting>
  {
    match id
    case Some(s) => [Sighting(s, stamp)]
    case None => []
  }

  /** The ledger calls for a run of per-face ids and clock readings, in face order. */
  function CallsOf(ids: seq<Option<string>>, stamps: seq<Stamp>): seq<Sighting>
    requires |stamps| == |ids|
  {
    if ids == [] then []
    else
      var n := |ids| - 1;
      CallsOf(ids[..n], stamps[..n]) + CallFor(ids[n], stamps[n])
  }

  /** The positions of a run of per-face ids that hold a student, in increasing order. */
  function MatchedPositions(ids: seq<Option<string>>): seq<nat>
  {
    if ids == [] then []
    else
      var n := |ids| - 1;
      MatchedPositions(ids[..n]) + (if ids[n].Some? then [n] else [])
  }

  /** The ledger calls of a frame, in face order. */
  function Sightings(profiles: seq<Profile>, probes: seq<Encoding>, stamps: seq<Stamp>, distance: (Encoding, Encoding) -> real): seq<Sighting>
    requires |stamps| == |probes|
  {
    CallsOf(FaceIds(profiles, probes, distance), stamps)
  }

  /** The positions of the matched faces of a frame, in face order. */
  function MatchedFaces(profiles: seq<Profile>, probes: seq<Encoding>, distance: (Encoding, Encoding) -> real): seq<nat>
  {
    MatchedPositions(FaceIds(profiles, probes, distance))
  }

  /** The attendance table after the given ledger calls, in order. */
  function RegisterAll(rs: seq<Record>, ss: seq<Sighting>): seq<Record>
  {
    if ss == [] then rs
    else
      var s := ss[|ss| - 1];
      Registered(RegisterAll(rs, ss[..|ss| - 1]), s.studentId, s.at.dateStr, s.at.timestamp)
  }

  /** The colour of a box: recognised exactly when the label is not "Unknown". */
  function ColourFor(name: string): Colour
  {
    if name != UnknownLabel then Recognised else Unrecognised
  }

  /** A prefix one longer is the prefix with the next element appended. */
  lemma PrefixStep<T>(s: seq<T>, i: nat)
    requires i < |s|
    ensures s[..i + 1] == s[..i] + [s[i]]
  {
  }

  /** Extending a run of faces by one extends its ledger calls by that face's. */
  lemma CallsOfStep(ids: seq<Option<string>>, stamps: seq<Stamp>, i: nat)
    requires i < |ids| == |stamps|
    ensures CallsOf(ids[..i + 1], stamps[..i + 1]) == CallsOf(ids[..i], stamps[..i]) + CallFor(ids[i], stamps[i])
  {
    assert ids[..i + 1][..i] == ids[..i] && stamps[..i + 1][..i] == stamps[..i];
  }

  lemma RegisterAllSnoc(rs: seq<Record>, ss: seq<Sighting>, s: Sighting)
    ensures RegisterAll(rs, ss + [s]) == Registered(RegisterAll(rs, ss), s.studentId, s.at.dateStr, s.at.timestamp)
  {
  }

  /** Registering two runs of sightings one after the other is registering them together. */
  lemma {:induction false} RegisterAllConcat(rs: seq<Record>, ss: seq<Sighting>, tt: seq<Sighting>)
    ensures RegisterAll(rs, ss + tt) == RegisterAll(RegisterAll(rs, ss), tt)
    decreases |tt|
  {
    if tt == [] {
      assert ss + tt == ss;
    } else {
      var init := tt[..|tt| - 1];
      assert (ss + tt)[..|ss + tt| - 1] == ss + init;
      RegisterAllConcat(rs, ss, init);
    }
  }

  lemma EncodingsOfZip(encodings: seq<Encoding>, ids: seq<string>, names: seq<string>)
    requires |encodings| == |ids| == |names|
    ensures EncodingsOf(Zip(encodings, ids, names)) == encodings
  {
  }

  /**
   * One face: with an empty cache the label is "Unknown" and nothing is
   * registered. Otherwise a match happens exactly when some known encoding
   * is within the tolerance, and then label and id both come from the first
   * minimum-distance index. Without a match the label is "Unknown".
   */
  lemma FaceSpec(profiles: seq<Profile>, probe: Encoding, distance: (Encoding, Encoding) -> real)
    ensures |profiles| == 0 ==> LabelOf(profiles, probe, distance) == UnknownLabel && SightedId(profiles, probe, distance) == None
    ensures SightedId(profiles, probe, distance).Some? <==>
              exists j :: 0 <= j < |profiles| && distance(profiles[j].encoding, probe) <= Tolerance
    ensures forall k :: IsFirstMin(Distances(EncodingsOf(profiles), probe, distance), k) &&
                        distance(profiles[k].encoding, probe) <= Tolerance ==>
              LabelOf(profiles, probe, distance) == profiles[k].name &&
              SightedId(profiles, probe, distance) == Some(profiles[k].id)
    ensures SightedId(profiles, probe, distance) == None ==> LabelOf(profiles, probe, distance) == UnknownLabel
  {
    var ds := Distances(EncodingsOf(profiles), probe, distance);
    DecideSpec(ds);
    assert forall j :: 0 <= j < |profiles| ==> ds[j] == distance(profiles[j].encoding, probe);
  }

  /** A run of faces none of which is matched makes no ledger call. */
  lemma {:induction false} NoMatchNoCalls(ids: seq<Option<string>>, stamps: seq<Stamp>)
    requires |stamps| == |ids|
    requires forall i :: 0 <= i < |ids| ==> ids[i] == None
    ensures CallsOf(ids, stamps) == []
  {
    if ids != [] {
      var n := |ids| - 1;
      NoMatchNoCalls(ids[..n], stamps[..n]);
    }
  }

  /** With an empty cache every face is labelled "Unknown" and the ledger is not called. */
  lemma EmptyCacheNoAttendance(profiles: seq<Profile>, probes: seq<Encoding>, stamps: seq<Stamp>, distance: (Encoding, Encoding) -> real)
    requires |profiles| == 0 && |stamps| == |probes|
    ensures Sightings(profiles, probes, stamps, distance) == []
    ensures forall i :: 0 <= i < |probes| ==> FrameLabels(profiles, probes, distance)[i] == UnknownLabel
  {
    var ids := FaceIds(profiles, probes, distance);
    forall i | 0 <= i < |probes|
      ensures ids[i] == None && FrameLabels(profiles, probes, distance)[i] == UnknownLabel
    {
      FaceSpec(profiles, probes[i], distance);
    }
    NoMatchNoCalls(ids, stamps);
  }

  /**
   * For any run of per-face ids: one call per position holding a student, in
   * position order, with that position's id and clock reading; the positions
   * increase strictly, and a position is among them exactly when it holds a
   * student.
   */
  lemma CallsInOrder(ids: seq<Option<string>>, stamps: seq<Stamp>)
    requires |stamps| == |ids|
    ensures |CallsOf(ids, stamps)| == |MatchedPositions(ids)| <= |ids|
    ensures forall k :: 0 <= k < |MatchedPositions(ids)| ==>
              var i := MatchedPositions(ids)[k];
              i < |ids| && ids[i].Some? && CallsOf(ids, stamps)[k] == Sighting(ids[i].value, stamps[i])
    ensures forall k1, k2 :: 0 <= k1 < k2 < |MatchedPositions(ids)| ==>
              MatchedPositions(ids)[k1] < MatchedPositions(ids)[k2]
    ensures forall i :: 0 <= i < |ids| ==> (ids[i].Some? <==> i in MatchedPositions(ids))
  {
    MatchedPositionsSpec(ids);
    CallsAtPositions(ids, stamps);
  }

  /**
   * The matched positions of a run of per-face ids hold a student, increase
   * strictly, and include every position that holds a student.
   */
  lemma {:induction false} MatchedPositionsSpec(ids: seq<Option<string>>)
    ensures |MatchedPositions(ids)| <= |ids|
    ensures forall k :: 0 <= k < |MatchedPositions(ids)| ==>
              MatchedPositions(ids)[k] < |ids| && ids[MatchedPositions(ids)[k]].Some?
    ensures forall k1, k2 :: 0 <= k1 < k2 < |MatchedPositions(ids)| ==>
              MatchedPositions(ids)[k1] < MatchedPositions(ids)[k2]
    ensures forall i :: 0 <= i < |ids| ==> (ids[i].Some? <==> i in MatchedPositions(ids))
  {
    if ids != [] {
      var n := |ids| - 1;
      var init := ids[..n];
      MatchedPositionsSpec(init);
      forall j | 0 <= j < n ensures ids[j] == init[j] { }
    }
  }

  /** Call k of a run of per-face ids is made from the k-th matched position. */
  lemma {:induction false} CallsAtPositions(ids: seq<Option<string>>, stamps: seq<Stamp>)
    requires |stamps| == |ids|
    ensures |CallsOf(ids, stamps)| == |MatchedPositions(ids)|
    ensures forall k :: 0 <= k < |MatchedPositions(ids)| ==>
              var i := MatchedPositions(ids)[k];
              i < |ids| && ids[i].Some? && CallsOf(ids, stamps)[k] == Sighting(ids[i].value, stamps[i])
  {
    if ids != [] {
      var n := |ids| - 1;
      var init, front := ids[..n], stamps[..n];
      CallsAtPositions(init, front);
      forall j | 0 <= j < n ensures ids[j] == init[j] && stamps[j] == front[j] { }
    }
  }

  /**
   * Exactly one ledger call per matched face, in face order: call k belongs
   * to face `MatchedFaces[k]` and carries that face's id and clock reading,
   * those positions increase strictly, and a face is among them exactly
   * when it is matched.
   */
  lemma SightingsInFaceOrder(profiles: seq<Profile>, probes: seq<Encoding>, stamps: seq<Stamp>, distance: (Encoding, Encoding) -> real)
    requires |stamps| == |probes|
    ensures |Sightings(profiles, probes, stamps, distance)| == |MatchedFaces(profiles, probes, distance)|
    ensures forall k :: 0 <= k < |MatchedFaces(profiles, probes, distance)| ==>
              var i := MatchedFaces(profiles, probes, distance)[k];
              i < |probes| && SightedId(profiles, probes[i], distance).Some? &&
              Sightings(profiles, probes, stamps, distance)[k] == Sighting(SightedId(profiles, probes[i], distance).value, stamps[i])
    ensures forall k1, k2 :: 0 <= k1 < k2 < |MatchedFaces(profiles, probes, distance)| ==>
              MatchedFaces(profiles, probes, distance)[k1] < MatchedFaces(profiles, probes, distance)[k2]
    ensures forall i :: 0 <= i < |probes| ==>
              (SightedId(profiles, probes[i], distance).Some? <==> i in MatchedFaces(profiles, probes, distance))
  {
    CallsInOrder(FaceIds(profiles, probes, distance), stamps);
  }

  /**
   * The ledger is called once for each matched face, with that face's
   * student id and clock reading, and for nothing else.
   */
  lemma SightingsAreMatchedFaces(profiles: seq<Profile>, probes: seq<Encoding>, stamps: seq<Stamp>, distance: (Encoding, Encoding) -> real)
    requires |stamps| == |probes|
    ensures |Sightings(profiles, probes, stamps, distance)| <= |probes|
    ensures forall s :: s in Sightings(profiles, probes, stamps, distance) ==>
              exists i :: 0 <= i < |probes| && SightedId(profiles, probes[i], distance) == Some(s.studentId) && stamps[i] == s.at
    ensures forall i :: 0 <= i < |probes| && SightedId(profiles, probes[i], distance).Some? ==>
              Sighting(SightedId(profiles, probes[i], distance).value, stamps[i]) in Sightings(profiles, probes, stamps, distance)
  {
    var ids := FaceIds(profiles, probes, distance);
    var all := Sightings(profiles, probes, stamps, distance);
    var mf := MatchedFaces(profiles, probes, distance);
    CallsInOrder(ids, stamps);
    forall s | s in all
      ensures exists i :: 0 <= i < |probes| && SightedId(profiles, probes[i], distance) == Some(s.studentId) && stamps[i] == s.at
    {
      var k :| 0 <= k < |all| && all[k] == s;
      var i := mf[k];
      assert ids[i] == Some(s.studentId) && stamps[i] == s.at;
    }
    forall i | 0 <= i < |probes| && SightedId(profiles, probes[i], distance).Some?
      ensures Sighting(SightedId(profiles, probes[i], distance).value, stamps[i]) in all
    {
      assert ids[i].Some? && i in mf;
      var k :| 0 <= k < |mf| && mf[k] == i;
      assert all[k] == Sighting(ids[i].value, stamps[i]);
    }
  }

  /** Registering a run of sightings only appends to the table. */
  lemma {:induction false} RegisterAllAppends(rs: seq<Record>, ss: seq<Sighting>)
    ensures rs <= RegisterAll(rs, ss)
    ensures |RegisterAll(rs, ss)| <= |rs| + |ss|
  {
    if ss != [] {
      var s := ss[|ss| - 1];
      RegisterAllAppends(rs, ss[..|ss| - 1]);
      RegisteredEffect(RegisterAll(rs, ss[..|ss| - 1]), s.studentId, s.at.dateStr, s.at.timestamp);
    }
  }

  /** Registering a run of sightings keeps the per-day rule. */
  lemma {:induction false} RegisterAllKeepsUnique(rs: seq<Record>, ss: seq<Sighting>)
    requires Unique(rs)
    ensures Unique(RegisterAll(rs, ss))
  {
    if ss != [] {
      var s := ss[|ss| - 1];
      RegisterAllKeepsUnique(rs, ss[..|ss| - 1]);
      RegisteredKeepsUnique(RegisterAll(rs, ss[..|ss| - 1]), s.studentId, s.at.dateStr, s.at.timestamp);
    }
  }

  /**
   * After a run of sightings every sighted student has a record on the day
   * of its sighting, and every new record is one of the sightings.
   */
  lemma {:induction false} RegisterAllRecordsSightings(rs: seq<Record>, ss: seq<Sighting>)
    ensures forall s :: s in ss ==> HasRecord(RegisterAll(rs, ss), s.studentId, s.at.dateStr)
    ensures forall k :: |rs| <= k < |RegisterAll(rs, ss)| ==>
              exists s :: s in ss && RegisterAll(rs, ss)[k] == Record(s.studentId, s.at.dateStr, s.at.timestamp)
  {
    if ss != [] {
      var init := ss[..|ss| - 1];
      var s := ss[|ss| - 1];
      var before := RegisterAll(rs, init);
      var after := RegisterAll(rs, ss);
      assert ss == init + [s];
      RegisterAllRecordsSightings(rs, init);
      RegisterAllAppends(rs, init);
      RegisteredEffect(before, s.studentId, s.at.dateStr, s.at.timestamp);
      forall t | t in ss
        ensures HasRecord(after, t.studentId, t.at.dateStr)
      {
        if t in init {
          HasRecordExtends(before, after, t.studentId, t.at.dateStr);
        }
      }
      forall k | |rs| <= k < |after|
        ensures exists t :: t in ss && after[k] == Record(t.studentId, t.at.dateStr, t.at.timestamp)
      {
        if k < |before| {
          var t :| t in init && before[k] == Record(t.studentId, t.at.dateStr, t.at.timestamp);
          assert t in ss && after[k] == before[k];
        } else {
          assert after == before + [Record(s.studentId, s.at.dateStr, s.at.timestamp)];
          assert s in ss && after[k] == Record(s.studentId, s.at.dateStr, s.at.timestamp);
        }
      }
    } else {
      assert RegisterAll(rs, ss) == rs;
    }
  }

  /**
   * Unfolds `SightedId` and `LabelOf` for one face into the branches that
   * `ResolveFace` takes, so that its proof sees them in one step. What the
   * decision means is stated by `FaceSpec`.
   */
  lemma FaceDecision(profiles: seq<Profile>, probe: Encoding, distance: (Encoding, Encoding) -> real)
    ensures var ds := Distances(EncodingsOf(profiles), probe, distance);
            if |ds| > 0 && CompareFaces(ds, Tolerance)[ArgMin(ds)] then
              ArgMin(ds) < |profiles| && SightedId(profiles, probe, distance) == Some(profiles[ArgMin(ds)].id) &&
              LabelOf(profiles, probe, distance) == profiles[ArgMin(ds)].name
            else
              SightedId(profiles, probe, distance) == None && LabelOf(profiles, probe, distance) == UnknownLabel
  {
  }

  /**
   * The body of the per-face loop of `generate_frames`: compute the distances
   * and the `compare_faces` flags, take the first index of minimum distance,
   * and on a flagged match register that student's id and return the name;
   * otherwise return "Unknown".
   */
  method ResolveFace(store: EmbeddingStore, ledger: AttendanceLedger, probe: Encoding, stamp: Stamp,
                     distance: (Encoding, Encoding) -> real)
    returns (name: string)
    requires store.Valid()
    modifies ledger
    ensures name == LabelOf(store.Profiles(), probe, distance)
    ensures ledger.records == RegisterAll(old(ledger.records), CallFor(SightedId(store.Profiles(), probe, distance), stamp))
  {
    ghost var profiles := store.Profiles();
    EncodingsOfZip(store.encodings, store.ids, store.names);
    FaceDecision(profiles, probe, distance);
    name := UnknownLabel;
    var faceDistances := Distances(store.encodings, probe, distance);
    var matches := CompareFaces(faceDistances, Tolerance);
    if |faceDistances| > 0 {
      var best := ArgMin(faceDistances);
      if matches[best] {
        name := store.names[best];
        var studentId := store.ids[best];
        var _ := ledger.Register(studentId, stamp.dateStr, stamp.timestamp);
        RegisterAllSnoc(old(ledger.records), [], Sighting(studentId, stamp));
      }
    }
  }

  /**
   * The per-face loop of `generate_frames`: resolve each face in turn,
   * collecting one label per face.
   */
  method ResolveFaces(store: EmbeddingStore, ledger: AttendanceLedger, probes: seq<Encoding>, stamps: seq<Stamp>,
                      distance: (Encoding, Encoding) -> real)
    returns (labels: seq<string>)
    requires store.Valid() && |stamps| == |probes|
    modifies ledger
    ensures labels == FrameLabels(store.Profiles(), probes, distance)
    ensures ledger.records == RegisterAll(old(ledger.records), Sightings(store.Profiles(), probes, stamps, distance))
  {
    ghost var profiles := store.Profiles();
    ghost var rs0 := ledger.records;
    ghost var ids := FaceIds(profiles, probes, distance);
    ghost var names := FrameLabels(profiles, probes, distance);
    labels := [];
    var i := 0;
    while i < |probes|
      invariant 0 <= i <= |probes|
      invariant store.Profiles() == profiles
      invariant labels == names[..i]
      invariant ledger.records == RegisterAll(rs0, CallsOf(ids[..i], stamps[..i]))
    {
      CallsOfStep(ids, stamps, i);
      RegisterAllConcat(rs0, CallsOf(ids[..i], stamps[..i]), CallFor(ids[i], stamps[i]));
      var name := ResolveFace(store, ledger, probes[i], stamps[i], distance);
      assert name == names[i];
      PrefixStep(names, i);
      labels := labels + [name];
      i := i + 1;
    }
    assert ids[..i] == ids && stamps[..i] == stamps && names[..i] == names;
  }

  /**
   * The drawing loop: pairs faces with labels as `zip` does (stopping at the
   * shorter list), scales each coordinate by four, and places the label band
   * and text at the bottom of the box.
   */
  method DrawFaces(locations: seq<Box>, labels: seq<string>) returns (drawn: seq<Overlay>)
    ensures |drawn| == if |locations| <= |labels| then |locations| else |labels|
    ensures forall i :: 0 <= i < |drawn| ==>
              var b := locations[i];
              drawn[i].box == Box(4 * b.top, 4 * b.right, 4 * b.bottom, 4 * b.left) &&
              drawn[i].band == Box(4 * b.bottom - 35, 4 * b.right, 4 * b.bottom, 4 * b.left) &&
              drawn[i].caption == labels[i] && drawn[i].textX == 4 * b.left + 6 && drawn[i].textY == 4 * b.bottom - 6 &&
              (drawn[i].colour == Recognised <==> labels[i] != UnknownLabel) &&
              (drawn[i].colour == Unrecognised <==> labels[i] == UnknownLabel)
  {
    var n := if |locations| <= |labels| then |locations| else |labels|;
    drawn := [];
    var i := 0;
    while i < n
      invariant 0 <= i <= n
      invariant |drawn| == i
      invariant forall j :: 0 <= j < i ==>
                  var b := locations[j];
                  drawn[j].box == Box(4 * b.top, 4 * b.right, 4 * b.bottom, 4 * b.left) &&
                  drawn[j].band == Box(4 * b.bottom - 35, 4 * b.right, 4 * b.bottom, 4 * b.left) &&
                  drawn[j].caption == labels[j] && drawn[j].textX == 4 * b.left + 6 && drawn[j].textY == 4 * b.bottom - 6 &&
                  drawn[j].colour == ColourFor(labels[j])
    {
      var top, right, bottom, left := locations[i].top, locations[i].right, locations[i].bottom, locations[i].left;
      var name := labels[i];
      top := top * ScaleFactor;
      right := right * ScaleFactor;
      bottom := bottom * ScaleFactor;
      left := left * ScaleFactor;
      var colour := ColourFor(name);
      var box := Box(top, right, bottom, left);
      var band := Box(bottom - BandHeight, right, bottom, left);
      drawn := drawn + [Overlay(box, colour, band, name, left + TextInset, bottom - TextInset)];
      i := i + 1;
    }
  }

  /** One frame: resolve every face, register the matches, then lay out the overlay. */
  method ProcessFrame(store: EmbeddingStore, ledger: AttendanceLedger, locations: seq<Box>, probes: seq<Encoding>,
                      stamps: seq<Stamp>, distance: (Encoding, Encoding) -> real)
    returns (drawn: seq<Overlay>)
    requires store.Valid() && |stamps| == |probes|
    modifies ledger
    ensures ledger.records == RegisterAll(old(ledger.records), Sightings(store.Profiles(), probes, stamps, distance))
    ensures |drawn| == if |locations| <= |probes| then |locations| else |probes|
    ensures forall i :: 0 <= i < |drawn| ==>
              drawn[i].caption == LabelOf(store.Profiles(), probes[i], distance) &&
              drawn[i].box == Box(4 * locations[i].top, 4 * locations[i].right, 4 * locations[i].bottom, 4 * locations[i].left) &&
              drawn[i].colour == ColourFor(drawn[i].caption)
  {
    var labels := ResolveFaces(store, ledger, probes, stamps, distance);
    drawn := DrawFaces(locations, labels);
  }
}
