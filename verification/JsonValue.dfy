/** The JSON value type (runtime/src/Json.h) and its compact printer.

    A `std::map<std::string, Value>` is modelled by the sequence of its fields in iteration order,
    that is, strictly sorted by key; `Insert` is `fields[key] = value`. */
module JsonValue {
  datatype Value =
    | Null
    | Bool(boolValue: bool)
    | Number(number: real)
    | String(text: string)
    | Array(items: seq<Value>)
    | Object(fields: seq<Field>)

  datatype Field = Field(key: string, value: Value)

  type Fields = seq<Field>

  /** `std::string::operator<`: lexicographic on characters. */
  predicate Less(a: string, b: string) {
    if b == [] then false
    else if a == [] then true
    else if a[0] != b[0] then a[0] < b[0]
    else Less(a[1..], b[1..])
  }

  ghost predicate Sorted(fields: Fields) {
    forall i, j :: 0 <= i < j < |fields| ==> Less(fields[i].key, fields[j].key)
  }

  /** `fields[key] = value` on a `std::map`. */
  function Insert(fields: Fields, key: string, value: Value): (r: Fields) {
    if fields == [] then [Field(key, value)]
    else if fields[0].key == key then [Field(key, value)] + fields[1..]
    else if Less(key, fields[0].key) then [Field(key, value)] + fields
    else [fields[0]] + Insert(fields[1..], key, value)
  }

  /** `fields.find(key) != end`. */
  predicate Has(fields: Fields, key: string) {
    fields != [] && (fields[0].key == key || Has(fields[1..], key))
  }

  /** The value found at a present key. */
  function Get(fields: Fields, key: string): (v: Value)
    requires Has(fields, key)
  {
    if fields[0].key == key then fields[0].value else Get(fields[1..], key)
  }

  /** The texts agree up to k, where the first ends or has the smaller character. */
  predicate LessAt(a: string, b: string, k: nat) {
    k <= |a| && k < |b| && a[..k] == b[..k] && (k == |a| || a[k] < b[k])
  }

  /** A proper beginning comes first; otherwise the first difference decides. */
  lemma {:induction false} LessExactly(a: string, b: string)
    ensures Less(a, b) <==> exists k: nat :: LessAt(a, b, k)
    decreases |a|
  {
    if a != "" && b != "" && a[0] == b[0] {
      LessExactly(a[1..], b[1..]);
      assert a == [a[0]] + a[1..] && b == [b[0]] + b[1..];
      if k: nat :| LessAt(a[1..], b[1..], k) {
        assert a[..k + 1] == [a[0]] + a[1..][..k] && b[..k + 1] == [b[0]] + b[1..][..k];
        assert LessAt(a, b, k + 1);
      }
      if k: nat :| LessAt(a, b, k) {
        assert k > 0;
        assert a[1..][..k - 1] == a[..k][1..] && b[1..][..k - 1] == b[..k][1..];
        assert LessAt(a[1..], b[1..], k - 1);
      }
    } else if b != "" && (a == "" || a[0] < b[0]) {
      assert LessAt(a, b, 0);
    } else {
      assert forall k: nat :: 0 < k && LessAt(a, b, k) ==> a[..k][0] == b[..k][0];
    }
  }

  lemma {:induction false} LessIrreflexive(a: string)
    ensures !Less(a, a)
  {
    if a != [] { LessIrreflexive(a[1..]); }
  }

  lemma {:induction false} LessTransitive(a: string, b: string, c: string)
    requires Less(a, b) && Less(b, c)
    ensures Less(a, c)
  {
    if a != [] && a[0] == b[0] && b[0] == c[0] { LessTransitive(a[1..], b[1..], c[1..]); }
  }

  lemma {:induction false} LessTotal(a: string, b: string)
    requires a != b
    ensures Less(a, b) || Less(b, a)
  {
    if a != [] && b != [] && a[0] == b[0] {
      assert a == [a[0]] + a[1..] && b == [b[0]] + b[1..];
      LessTotal(a[1..], b[1..]);
    }
  }

  /** Keys of a sorted tail are all above the head. */
  lemma HeadBelow(fields: Fields, key: string)
    requires Sorted(fields) && fields != [] && Has(fields[1..], key)
    ensures Less(fields[0].key, key)
  {
    var i := IndexOf(fields[1..], key);
    assert fields[1..][i] == fields[i + 1];
  }

  lemma {:induction false} IndexOf(fields: Fields, key: string) returns (i: nat)
    requires Has(fields, key)
    ensures i < |fields| && fields[i].key == key
  {
    if fields[0].key == key { i := 0; } else {
      i := IndexOf(fields[1..], key);
      i := i + 1;
    }
  }

  lemma {:induction false} HasAt(fields: Fields, i: nat)
    requires i < |fields|
    ensures Has(fields, fields[i].key)
  {
    if i > 0 {
      assert fields[1..][i - 1] == fields[i];
      HasAt(fields[1..], i - 1);
    }
  }

  /** Assignment keeps the map sorted and, read back, is exactly a map update. */
  lemma {:induction false} InsertIsUpdate(fields: Fields, key: string, value: Value)
    requires Sorted(fields)
    ensures Sorted(Insert(fields, key, value))
    ensures Has(Insert(fields, key, value), key) && Get(Insert(fields, key, value), key) == value
    ensures forall k :: k != key ==>
      Has(Insert(fields, key, value), k) == Has(fields, k) &&
      (Has(fields, k) ==> Get(Insert(fields, key, value), k) == Get(fields, k))
  {
    if fields == [] {
    } else if fields[0].key == key {
      var r := Insert(fields, key, value);
      assert r[1..] == fields[1..];
      assert forall i :: 1 <= i < |r| ==> r[i] == fields[i];
    } else if Less(key, fields[0].key) {
      var r := Insert(fields, key, value);
      assert r[1..] == fields;
      forall i, j | 0 <= i < j < |r| ensures Less(r[i].key, r[j].key) {
        if i == 0 && j > 1 { LessTransitive(key, fields[0].key, fields[j - 1].key); }
      }
    } else {
      var rest := fields[1..];
      InsertIsUpdate(rest, key, value);
      var inner := Insert(rest, key, value);
      var r := Insert(fields, key, value);
      assert r[1..] == inner;
      LessTotal(fields[0].key, key);
      forall i, j | 0 <= i < j < |r| ensures Less(r[i].key, r[j].key) {
        if i > 0 {
          assert r[i] == inner[i - 1] && r[j] == inner[j - 1];
        } else {
          assert r[j] == inner[j - 1];
          HasAt(inner, j - 1);
          if r[j].key != key { HeadBelow(fields, r[j].key); }
        }
      }
    }
  }

  /** A key above every present key lands at the end: sorted fields re-inserted in order rebuild themselves. */
  lemma {:induction false} InsertAtEnd(fields: Fields, key: string, value: Value)
    requires forall i :: 0 <= i < |fields| ==> Less(fields[i].key, key)
    ensures Insert(fields, key, value) == fields + [Field(key, value)]
  {
    if fields != [] {
      assert Less(fields[0].key, key);
      if fields[0].key == key { LessIrreflexive(key); }
      if Less(key, fields[0].key) { LessTransitive(key, fields[0].key, key); LessIrreflexive(key); }
      forall i | 0 <= i < |fields[1..]| ensures Less(fields[1..][i].key, key) {
        assert fields[1..][i] == fields[i + 1];
      }
      InsertAtEnd(fields[1..], key, value);
      assert fields == [fields[0]] + fields[1..];
    }
  }

  /** Maps nested anywhere in a value are sorted. */
  ghost predicate WellFormed(v: Value)
    decreases v
  {
    match v
    case Array(items) => forall i :: 0 <= i < |items| ==> WellFormed(items[i])
    case Object(fields) => Sorted(fields) && forall i :: 0 <= i < |fields| ==> WellFormed(fields[i].value)
    case _ => true
  }

  /** The numbers that take the integer branch of the printer: `d == static_cast<long long>(d)`. */
  predicate ExactNumber(n: real) {
    n == n.Floor as real && -0x8000_0000_0000_0000 <= n.Floor < 0x8000_0000_0000_0000
  }

  /** Every number nested in a value is printed exactly. */
  ghost predicate Exact(v: Value)
    decreases v
  {
    match v
    case Number(n) => ExactNumber(n)
    case Array(items) => forall i :: 0 <= i < |items| ==> Exact(items[i])
    case Object(fields) => forall i :: 0 <= i < |fields| ==> Exact(fields[i].value)
    case _ => true
  }
}
