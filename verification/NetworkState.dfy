/** The replicated snapshot and its JSON form (runtime/src/NetworkState.cpp, runtime/src/Entity.h). */
module NetworkState {
  import opened Wrappers
  import opened JsonValue
  import opened JsonPrinter
  import opened JsonParser
  import opened JsonRoundTrip

  datatype Vector3 = Vector3(x: real, y: real, z: real)
  datatype Rotation3 = Rotation3(pitch: real, yaw: real, roll: real)
  datatype Snapshot = Snapshot(position: Vector3, rotation: Rotation3, basicState: Fields, timestampMs: int)

  const ORIGIN := Vector3(0.0, 0.0, 0.0)
  const LEVEL := Rotation3(0.0, 0.0, 0.0)

  /** `NetworkState{}`. */
  const BLANK := Snapshot(ORIGIN, LEVEL, [], 0)

  function VectorToJson(v: Vector3): Fields {
    Insert(Insert(Insert([], "x", Number(v.x)), "y", Number(v.y)), "z", Number(v.z))
  }

  function RotationToJson(r: Rotation3): Fields {
    Insert(Insert(Insert([], "pitch", Number(r.pitch)), "yaw", Number(r.yaw)), "roll", Number(r.roll))
  }

  function ToJson(s: Snapshot): Fields {
    var one := Insert([], "position", Object(VectorToJson(s.position)));
    var two := Insert(one, "rotation", Object(RotationToJson(s.rotation)));
    var three := Insert(two, "basicState", Object(s.basicState));
    Insert(three, "timestamp", Number(s.timestampMs as real))
  }

  /** `find(key)->second.AsNumber()`, zero when absent or not a number. */
  function NumberAt(o: Fields, key: string): real {
    if Has(o, key) && Get(o, key).Number? then Get(o, key).number else 0.0
  }

  /** The object at a key, empty when absent or not an object. */
  function ObjectAt(o: Fields, key: string): Fields {
    if Has(o, key) && Get(o, key).Object? then Get(o, key).fields else []
  }

  /** `static_cast<int64_t>` on a double: towards zero. */
  function Truncate(r: real): int {
    if r >= 0.0 then r.Floor else -((0.0 - r).Floor)
  }

  function VectorFromJson(o: Fields): Vector3 {
    Vector3(NumberAt(o, "x"), NumberAt(o, "y"), NumberAt(o, "z"))
  }

  function RotationFromJson(o: Fields): Rotation3 {
    Rotation3(NumberAt(o, "pitch"), NumberAt(o, "yaw"), NumberAt(o, "roll"))
  }

  function FromJson(o: Fields): Snapshot {
    Snapshot(
      VectorFromJson(ObjectAt(o, "position")),
      RotationFromJson(ObjectAt(o, "rotation")),
      ObjectAt(o, "basicState"),
      Truncate(NumberAt(o, "timestamp")))
  }

  /** A snapshot whose numbers are all printed exactly. */
  ghost predicate Printable(s: Snapshot) {
    ExactNumber(s.position.x) && ExactNumber(s.position.y) && ExactNumber(s.position.z) &&
    ExactNumber(s.rotation.pitch) && ExactNumber(s.rotation.yaw) && ExactNumber(s.rotation.roll) &&
    ExactNumber(s.timestampMs as real) && WellFormed(Object(s.basicState)) && Exact(Object(s.basicState))
  }

  /** Three values under three keys, in any order of assignment. */
  lemma ThreeKeys(a: string, av: Value, b: string, bv: Value, c: string, cv: Value)
    requires a != b && b != c && a != c
    ensures var o := Insert(Insert(Insert([], a, av), b, bv), c, cv);
      Sorted(o) && Has(o, a) && Get(o, a) == av && Has(o, b) && Get(o, b) == bv && Has(o, c) && Get(o, c) == cv
  {
    InsertIsUpdate([], a, av);
    InsertIsUpdate(Insert([], a, av), b, bv);
    InsertIsUpdate(Insert(Insert([], a, av), b, bv), c, cv);
  }

  lemma FieldsOfSnapshot(s: Snapshot) returns (o: Fields)
    ensures o == ToJson(s) && Sorted(o)
    ensures Has(o, "position") && Get(o, "position") == Object(VectorToJson(s.position))
    ensures Has(o, "rotation") && Get(o, "rotation") == Object(RotationToJson(s.rotation))
    ensures Has(o, "basicState") && Get(o, "basicState") == Object(s.basicState)
    ensures Has(o, "timestamp") && Get(o, "timestamp") == Number(s.timestampMs as real)
  {
    var p, r, b := Object(VectorToJson(s.position)), Object(RotationToJson(s.rotation)), Object(s.basicState);
    ThreeKeys("position", p, "rotation", r, "basicState", b);
    var three := Insert(Insert(Insert([], "position", p), "rotation", r), "basicState", b);
    InsertIsUpdate(three, "timestamp", Number(s.timestampMs as real));
    o := ToJson(s);
  }

  /** Decoding undoes encoding, for every snapshot. */
  lemma FromToJson(s: Snapshot)
    ensures FromJson(ToJson(s)) == s
  {
    var o := FieldsOfSnapshot(s);
    ThreeKeys("x", Number(s.position.x), "y", Number(s.position.y), "z", Number(s.position.z));
    ThreeKeys("pitch", Number(s.rotation.pitch), "yaw", Number(s.rotation.yaw), "roll", Number(s.rotation.roll));
  }

  /** The relay puts `playerId` beside the snapshot's fields; decoding does not look at it. */
  lemma FromJsonIgnoresPlayerId(o: Fields, id: string)
    requires Sorted(o)
    ensures FromJson(Insert(o, "playerId", String(id))) == FromJson(o)
  {
    InsertIsUpdate(o, "playerId", String(id));
    var o' := Insert(o, "playerId", String(id));
    assert ObjectAt(o', "position") == ObjectAt(o, "position") && ObjectAt(o', "rotation") == ObjectAt(o, "rotation");
    assert ObjectAt(o', "basicState") == ObjectAt(o, "basicState")
      && NumberAt(o', "timestamp") == NumberAt(o, "timestamp");
  }

  // ---------- the wire format ----------

  /** The number under a key of the object under a key, where there is one. */
  function PathNumber(o: Fields, outer: string, inner: string): Option<real> {
    if !Has(o, outer) || !Get(o, outer).Object? then None
    else
      var nested := Get(o, outer).fields;
      if Has(nested, inner) && Get(nested, inner).Number? then Some(Get(nested, inner).number) else None
  }

  /** Four fields, and the numbers under their names. */
  lemma EncodedExactly(s: Snapshot)
    ensures var o := ToJson(s);
      && (forall key :: Has(o, key) <==> key in {"position", "rotation", "basicState", "timestamp"})
      && PathNumber(o, "position", "x") == Some(s.position.x) && PathNumber(o, "position", "y") == Some(s.position.y)
      && PathNumber(o, "position", "z") == Some(s.position.z)
      && PathNumber(o, "rotation", "pitch") == Some(s.rotation.pitch)
      && PathNumber(o, "rotation", "yaw") == Some(s.rotation.yaw)
      && PathNumber(o, "rotation", "roll") == Some(s.rotation.roll)
      && Get(o, "basicState") == Object(s.basicState) && Get(o, "timestamp") == Number(s.timestampMs as real)
  {
    hide Insert, Has, Get, Sorted;
    var p, r, b := Object(VectorToJson(s.position)), Object(RotationToJson(s.rotation)), Object(s.basicState);
    FourKeys(p, r, b, Number(s.timestampMs as real));
    ThreeKeys("x", Number(s.position.x), "y", Number(s.position.y), "z", Number(s.position.z));
    ThreeKeys("pitch", Number(s.rotation.pitch), "yaw", Number(s.rotation.yaw), "roll", Number(s.rotation.roll));
  }

  lemma FourKeys(p: Value, r: Value, b: Value, t: Value)
    ensures var o := Insert(Insert(Insert(Insert([], "position", p), "rotation", r), "basicState", b), "timestamp", t);
      && (forall key :: Has(o, key) <==> key in {"position", "rotation", "basicState", "timestamp"})
      && Get(o, "position") == p && Get(o, "rotation") == r && Get(o, "basicState") == b && Get(o, "timestamp") == t
  {
    hide Has, Get, Insert;
    var one := Insert([], "position", p);
    var two := Insert(one, "rotation", r);
    var three := Insert(two, "basicState", b);
    NothingIn();
    InsertIsUpdate([], "position", p);
    InsertIsUpdate(one, "rotation", r);
    InsertIsUpdate(two, "basicState", b);
    InsertIsUpdate(three, "timestamp", t);
  }

  lemma NothingIn()
    ensures forall key :: !Has([], key)
  {
  }

  function OrZero(n: Option<real>): real { if n.Some? then n.value else 0.0 }

  /** What is decoded from any object at all: numbers that are missing or of another type are zero, and so are all
      those of a part that is. */
  lemma DecodedExactly(o: Fields)
    ensures var s := FromJson(o);
      && s.position.x == OrZero(PathNumber(o, "position", "x"))
      && s.position.y == OrZero(PathNumber(o, "position", "y"))
      && s.position.z == OrZero(PathNumber(o, "position", "z"))
      && s.rotation.pitch == OrZero(PathNumber(o, "rotation", "pitch"))
      && s.rotation.yaw == OrZero(PathNumber(o, "rotation", "yaw"))
      && s.rotation.roll == OrZero(PathNumber(o, "rotation", "roll"))
      && s.basicState ==
        (if Has(o, "basicState") && Get(o, "basicState").Object? then Get(o, "basicState").fields else [])
    ensures !Has(o, "timestamp") || !Get(o, "timestamp").Number? ==> FromJson(o).timestampMs == 0
    ensures Has(o, "timestamp") && Get(o, "timestamp").Number? ==>
      TowardsZero(Get(o, "timestamp").number, FromJson(o).timestampMs)
  {
    NothingIn();
  }

  /** n is r without its fraction. */
  predicate TowardsZero(r: real, n: int) {
    if r >= 0.0 then n as real <= r < n as real + 1.0 else n as real - 1.0 < r <= n as real
  }

  ghost predicate Good(v: Value) { WellFormed(v) && Exact(v) }

  /** Assigning a printable value to a key of a printable map. */
  lemma {:induction false} GoodInsert(o: Fields, key: string, v: Value)
    requires Good(Object(o)) && Good(v)
    ensures Good(Object(Insert(o, key, v)))
  {
    InsertIsUpdate(o, key, v);
    if o != [] && o[0].key != key && !Less(key, o[0].key) {
      var rest := o[1..];
      assert forall i :: 0 <= i < |rest| ==> rest[i] == o[i + 1];
      GoodInsert(rest, key, v);
    }
  }

  lemma GoodThree(a: string, x: real, b: string, y: real, c: string, z: real)
    requires ExactNumber(x) && ExactNumber(y) && ExactNumber(z)
    ensures Good(Object(Insert(Insert(Insert([], a, Number(x)), b, Number(y)), c, Number(z))))
  {
    GoodInsert([], a, Number(x));
    GoodInsert(Insert([], a, Number(x)), b, Number(y));
    GoodInsert(Insert(Insert([], a, Number(x)), b, Number(y)), c, Number(z));
  }

  lemma GoodSnapshot(s: Snapshot)
    requires Printable(s)
    ensures Good(Object(ToJson(s)))
  {
    GoodThree("x", s.position.x, "y", s.position.y, "z", s.position.z);
    GoodThree("pitch", s.rotation.pitch, "yaw", s.rotation.yaw, "roll", s.rotation.roll);
    GoodInsert([], "position", Object(VectorToJson(s.position)));
    var o := Insert([], "position", Object(VectorToJson(s.position)));
    GoodInsert(o, "rotation", Object(RotationToJson(s.rotation)));
    o := Insert(o, "rotation", Object(RotationToJson(s.rotation)));
    GoodInsert(o, "basicState", Object(s.basicState));
    o := Insert(o, "basicState", Object(s.basicState));
    GoodInsert(o, "timestamp", Number(s.timestampMs as real));
  }

  /** A snapshot sent as text, with or without the sender's id added on the way, arrives unchanged. */
  lemma SnapshotCarried(s: Snapshot, id: string, lossy: Lossy)
    requires Printable(s)
    ensures var sent := ParseValue(Text(Object(ToJson(s)), lossy));
      sent.Ok? && sent.rest == "" && sent.value.Object? && FromJson(sent.value.fields) == s
    ensures var relayed := ParseValue(Text(Object(Insert(ToJson(s), "playerId", String(id))), lossy));
      relayed.Ok? && relayed.rest == "" && relayed.value.Object? && FromJson(relayed.value.fields) == s &&
      Has(relayed.value.fields, "playerId") && Get(relayed.value.fields, "playerId") == String(id)
  {
    GoodSnapshot(s);
    var o := FieldsOfSnapshot(s);
    FromToJson(s);
    PrintedWhole(Object(o), lossy);
    GoodInsert(o, "playerId", String(id));
    InsertIsUpdate(o, "playerId", String(id));
    FromJsonIgnoresPlayerId(o, id);
    PrintedWhole(Object(Insert(o, "playerId", String(id))), lossy);
  }

  lemma PrintedWhole(v: Value, lossy: Lossy)
    requires Good(v)
    ensures ParseValue(Text(v, lossy)) == Ok(v, "")
  {
    PrintedIsRead(v, "", lossy);
    assert Text(v, lossy) + "" == Text(v, lossy);
  }
}
