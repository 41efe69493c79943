/** The conversion between JSON and Python values. A JSON object keeps its fields in key
    order; a Python dictionary keeps its items in insertion order. How the interpreter
    prints a key and how it encodes bytes are parameters. */
module PyJson {
  import opened Common

  const TWO63: int := 0x8000_0000_0000_0000

  /** A JSON integer is signed or unsigned, of 64 bits; which of the two is not observable
      where both hold the value. A float is known by its bits. */
  datatype Json =
    | Null
    | Bool(b: bool)
    | Integer(n: int)
    | Float(bits: nat)
    | Text(s: string)
    | Array(items: seq<Json>)
    | Object(fields: seq<Field>)

  datatype Field = Field(key: string, value: Json)

  datatype Py =
    | PyNone
    | PyBool(b: bool)
    | PyInt(n: int)
    | PyFloat(bits: nat)
    | PyBytes(bytes: seq<bv8>)
    | PyStr(s: string)
    | PyTuple(items: seq<Py>)
    | PyList(items: seq<Py>)
    | PyDict(pairs: seq<Pair>)
    | PyOther

  datatype Pair = Pair(key: Py, value: Py)

  /** `str` on a dictionary key, and base64 on bytes. */
  datatype Interpreter = Interpreter(str: Py -> string, encode: seq<bv8> -> string)

  ghost predicate Proper(python: Interpreter)
  {
    forall s :: python.str(PyStr(s)) == s
  }

  datatype Result<T> = Success(value: T) | Failure

  // ---------------------------------------------------------------- the order of keys

  predicate Less(a: string, b: string)
  {
    b != "" && (a == "" || a[0] < b[0] || (a[0] == b[0] && Less(a[1..], b[1..])))
  }

  lemma {:induction false} LessIsStrict(a: string, b: string)
    ensures !Less(a, a)
    ensures !(Less(a, b) && Less(b, a))
    ensures a == b || Less(a, b) || Less(b, a)
  {
    if a != "" {
      LessIsStrict(a[1..], if b == "" then "" else b[1..]);
      if b != "" && a[0] == b[0] && a[1..] == b[1..] {
        assert a == [a[0]] + a[1..] == b;
      }
    }
  }

  lemma {:induction false} LessIsTransitive(a: string, b: string, c: string)
    requires Less(a, b) && Less(b, c)
    ensures Less(a, c)
  {
    if a != "" && a[0] == b[0] == c[0] {
      LessIsTransitive(a[1..], b[1..], c[1..]);
    }
  }

  predicate Sorted(fields: seq<Field>)
  {
    forall i, j :: 0 <= i < j < |fields| ==> Less(fields[i].key, fields[j].key)
  }

  /** Assignment to a key of a JSON object. */
  function Insert(fields: seq<Field>, key: string, value: Json): seq<Field>
  {
    if fields == [] || Less(key, fields[0].key) then [Field(key, value)] + fields
    else if fields[0].key == key then [Field(key, value)] + fields[1..]
    else [fields[0]] + Insert(fields[1..], key, value)
  }

  lemma {:induction false} InsertLast(fields: seq<Field>, key: string, value: Json)
    requires forall i :: 0 <= i < |fields| ==> Less(fields[i].key, key)
    ensures Insert(fields, key, value) == fields + [Field(key, value)]
  {
    if fields != [] {
      LessIsStrict(fields[0].key, key);
      InsertLast(fields[1..], key, value);
    }
  }

  predicate Above(key: string, fields: seq<Field>)
  {
    forall f :: f in fields ==> Less(key, f.key)
  }

  lemma SortedCons(f: Field, fields: seq<Field>)
    ensures Sorted([f] + fields) <==> Above(f.key, fields) && Sorted(fields)
  {
    var all := [f] + fields;
    if Sorted(all) {
      forall g | g in fields ensures Less(f.key, g.key) {
        var i :| 0 <= i < |fields| && fields[i] == g;
        assert all[0] == f && all[i + 1] == g;
      }
      forall i, j | 0 <= i < j < |fields| ensures Less(fields[i].key, fields[j].key) {
        assert all[i + 1] == fields[i] && all[j + 1] == fields[j];
      }
    }
  }

  lemma {:induction false} InsertMeans(fields: seq<Field>, key: string, value: Json)
    requires Sorted(fields)
    ensures Sorted(Insert(fields, key, value))
    ensures forall f :: f in Insert(fields, key, value) <==> f == Field(key, value) || (f in fields && f.key != key)
  {
    if fields == [] {
      return;
    }
    var first, rest := fields[0], fields[1..];
    assert fields == [first] + rest;
    SortedCons(first, rest);
    LessIsStrict(key, first.key);
    if Less(key, first.key) {
      forall f | f in fields ensures Less(key, f.key) && f.key != key {
        if f != first {
          LessIsTransitive(key, first.key, f.key);
        }
        LessIsStrict(key, f.key);
      }
      SortedCons(Field(key, value), fields);
    } else {
      forall f | f in rest ensures f.key != first.key {
        LessIsStrict(first.key, f.key);
      }
      if first.key == key {
        SortedCons(Field(key, value), rest);
      } else {
        InsertMeans(rest, key, value);
        SortedCons(first, Insert(rest, key, value));
      }
    }
  }

  // ---------------------------------------------------------------- JSON values

  /** What a JSON value can hold: integers of 64 bits, objects with distinct keys in order. */
  predicate Valid(j: Json)
    decreases j
  {
    match j
    case Integer(n) => -TWO63 <= n < SIZE_MAX_PLUS_ONE
    case Array(items) => forall i :: 0 <= i < |items| ==> Valid(items[i])
    case Object(fields) => Sorted(fields) && forall i :: 0 <= i < |fields| ==> Valid(fields[i].value)
    case _ => true
  }

  /** Every integer fits in signed 64 bits. */
  predicate Fits(j: Json)
    decreases j
  {
    match j
    case Integer(n) => -TWO63 <= n < TWO63
    case Array(items) => forall i :: 0 <= i < |items| ==> Fits(items[i])
    case Object(fields) => forall i :: 0 <= i < |fields| ==> Fits(fields[i].value)
    case _ => true
  }

  function Wrap(n: int): int
  {
    if n >= TWO63 then n - SIZE_MAX_PLUS_ONE else n
  }

  /** The value with every integer read as a signed one. */
  function Signed(j: Json): Json
    decreases j
  {
    match j
    case Integer(n) => Integer(Wrap(n))
    case Array(items) => Array(SignedItems(items))
    case Object(fields) => Object(SignedFields(fields))
    case _ => j
  }

  function SignedItems(items: seq<Json>): seq<Json>
    decreases items
  {
    if items == [] then [] else [Signed(items[0])] + SignedItems(items[1..])
  }

  function SignedFields(fields: seq<Field>): seq<Field>
    decreases fields
  {
    if fields == [] then [] else [Field(fields[0].key, Signed(fields[0].value))] + SignedFields(fields[1..])
  }

  lemma {:induction false} SignedIffFits(j: Json)
    requires Valid(j)
    ensures Signed(j) == j <==> Fits(j)
    decreases j
  {
    match j {
      case Array(items) => SignedItemsIffFit(items);
      case Object(fields) => SignedFieldsIffFit(fields);
      case _ =>
    }
  }

  lemma {:induction false} SignedItemsIffFit(items: seq<Json>)
    requires forall i :: 0 <= i < |items| ==> Valid(items[i])
    ensures SignedItems(items) == items <==> forall i :: 0 <= i < |items| ==> Fits(items[i])
    decreases items
  {
    if items != [] {
      var rest := items[1..];
      SignedIffFits(items[0]);
      SignedItemsIffFit(rest);
      assert items == [items[0]] + rest;
      assert SignedItems(items)[1..] == SignedItems(rest);
      assert forall i :: 0 < i < |items| ==> items[i] == rest[i - 1];
    }
  }

  lemma {:induction false} SignedFieldsIffFit(fields: seq<Field>)
    requires forall i :: 0 <= i < |fields| ==> Valid(fields[i].value)
    ensures SignedFields(fields) == fields <==> forall i :: 0 <= i < |fields| ==> Fits(fields[i].value)
    decreases fields
  {
    if fields != [] {
      var rest := fields[1..];
      SignedIffFits(fields[0].value);
      SignedFieldsIffFit(rest);
      assert fields == [fields[0]] + rest;
      assert SignedFields(fields)[1..] == SignedFields(rest);
      assert forall i :: 0 < i < |fields| ==> fields[i] == rest[i - 1];
    }
  }

  // ---------------------------------------------------------------- JSON to Python

  /** What `from_json` computes. The test for an integer holds for unsigned ones too, so they
      are read as signed. */
  function AsPython(j: Json): Py
    decreases j
  {
    match j
    case Null => PyNone
    case Bool(b) => PyBool(b)
    case Integer(n) => PyInt(Wrap(n))
    case Float(bits) => PyFloat(bits)
    case Text(s) => PyStr(s)
    case Array(items) => PyList(AsItems(items))
    case Object(fields) => PyDict(AsPairs(fields))
  }

  function AsItems(items: seq<Json>): seq<Py>
    decreases items
  {
    if items == [] then [] else [AsPython(items[0])] + AsItems(items[1..])
  }

  function AsPairs(fields: seq<Field>): seq<Pair>
    decreases fields
  {
    if fields == [] then [] else [Pair(PyStr(fields[0].key), AsPython(fields[0].value))] + AsPairs(fields[1..])
  }

  /** Assignment to a key of a dictionary. */
  function SetItem(pairs: seq<Pair>, key: Py, value: Py): seq<Pair>
  {
    if pairs == [] then [Pair(key, value)]
    else if pairs[0].key == key then [Pair(key, value)] + pairs[1..]
    else [pairs[0]] + SetItem(pairs[1..], key, value)
  }

  lemma {:induction false} SetNewItem(pairs: seq<Pair>, key: Py, value: Py)
    requires forall i :: 0 <= i < |pairs| ==> pairs[i].key != key
    ensures SetItem(pairs, key, value) == pairs + [Pair(key, value)]
  {
    if pairs != [] {
      SetNewItem(pairs[1..], key, value);
    }
  }

  lemma {:induction false} AsItemsAt(items: seq<Json>, i: nat)
    requires i < |items|
    ensures AsItems(items[..i + 1]) == AsItems(items[..i]) + [AsPython(items[i])]
    decreases i
  {
    if i > 0 {
      AsItemsAt(items[1..], i - 1);
      assert items[..i + 1][1..] == items[1..][..i];
      assert items[..i][1..] == items[1..][..i - 1];
    }
  }

  lemma {:induction false} AsPairsAt(fields: seq<Field>, i: nat)
    requires i < |fields|
    ensures AsPairs(fields[..i + 1]) == AsPairs(fields[..i]) + [Pair(PyStr(fields[i].key), AsPython(fields[i].value))]
    ensures |AsPairs(fields[..i])| == i
    ensures forall k :: 0 <= k < i ==> AsPairs(fields[..i])[k].key == PyStr(fields[k].key)
    decreases i
  {
    if i > 0 {
      AsPairsAt(fields[1..], i - 1);
      assert fields[..i + 1][1..] == fields[1..][..i];
      assert fields[..i][1..] == fields[1..][..i - 1];
    }
  }

  method FromJson(j: Json) returns (p: Py)
    requires Valid(j)
    ensures p == AsPython(j)
    decreases j
  {
    match j {
      case Null => p := PyNone;
      case Bool(b) => p := PyBool(b);
      case Integer(n) => p := PyInt(if n < TWO63 then n else n - SIZE_MAX_PLUS_ONE);
      case Float(bits) => p := PyFloat(bits);
      case Text(s) => p := PyStr(s);
      case Array(items) =>
        var list := [];
        for i := 0 to |items|
          invariant list == AsItems(items[..i])
        {
          AsItemsAt(items, i);
          var value := FromJson(items[i]);
          list := list + [value];
        }
        assert items[..|items|] == items;
        p := PyList(list);
      case Object(fields) =>
        var dict := [];
        for i := 0 to |fields|
          invariant dict == AsPairs(fields[..i])
        {
          AsPairsAt(fields, i);
          var value := FromJson(fields[i].value);
          forall k | 0 <= k < i ensures dict[k].key != PyStr(fields[i].key) {
            LessIsStrict(fields[k].key, fields[i].key);
          }
          SetNewItem(dict, PyStr(fields[i].key), value);
          dict := SetItem(dict, PyStr(fields[i].key), value);
        }
        assert fields[..|fields|] == fields;
        p := PyDict(dict);
    }
  }

  // ---------------------------------------------------------------- Python to JSON

  /** What `to_json` computes, or that it raises an exception. */
  function AsJson(python: Interpreter, p: Py): Result<Json>
    decreases p
  {
    match p
    case PyNone => Success(Null)
    case PyBool(b) => Success(Bool(b))
    case PyInt(n) => if -TWO63 <= n < SIZE_MAX_PLUS_ONE then Success(Integer(n)) else Failure
    case PyFloat(bits) => Success(Float(bits))
    case PyBytes(bytes) => Success(Text(python.encode(bytes)))
    case PyStr(s) => Success(Text(s))
    case PyTuple(items) =>
      (match AllAsJson(python, items) case Success(js) => Success(Array(js)) case Failure => Failure)
    case PyList(items) =>
      (match AllAsJson(python, items) case Success(js) => Success(Array(js)) case Failure => Failure)
    case PyDict(pairs) =>
      (match Assigned(python, pairs, []) case Success(fs) => Success(Object(fs)) case Failure => Failure)
    case PyOther => Failure
  }

  function AllAsJson(python: Interpreter, items: seq<Py>): Result<seq<Json>>
    decreases items
  {
    if items == [] then Success([])
    else
      match AsJson(python, items[0])
      case Failure => Failure
      case Success(j) =>
        match AllAsJson(python, items[1..])
        case Failure => Failure
        case Success(js) => Success([j] + js)
  }

  /** The pairs of a dictionary assigned, in order, to an object that has some fields. */
  function Assigned(python: Interpreter, pairs: seq<Pair>, fields: seq<Field>): Result<seq<Field>>
    decreases pairs
  {
    if pairs == [] then Success(fields)
    else
      var pair := pairs[0];
      assert pair.value < pair;
      match AsJson(python, pair.value)
      case Failure => Failure
      case Success(j) => Assigned(python, pairs[1..], Insert(fields, python.str(pair.key), j))
  }

  /** Case by case: the scalars convert to their like; a tuple converts as the list of its items, and succeeds when they all
      convert, to the array of what they convert to; bytes become the text of their encoding;
      an integer keeps its value as long as 64 bits hold it. */
  lemma ToJsonMeans(python: Interpreter, items: seq<Py>, bytes: seq<bv8>, n: int, b: bool, bits: nat, s: string)
    ensures AsJson(python, PyNone) == Success(Null) && AsJson(python, PyBool(b)) == Success(Bool(b))
    ensures AsJson(python, PyFloat(bits)) == Success(Float(bits)) && AsJson(python, PyStr(s)) == Success(Text(s))
    ensures AsJson(python, PyTuple(items)) == AsJson(python, PyList(items))
    ensures AsJson(python, PyList(items)).Success? <==> forall i :: 0 <= i < |items| ==> AsJson(python, items[i]).Success?
    ensures AsJson(python, PyList(items)).Success? ==>
              exists js :: AsJson(python, PyList(items)) == Success(Array(js)) && Converted(python, items, js)
    ensures AsJson(python, PyBytes(bytes)) == Success(Text(python.encode(bytes)))
    ensures if -TWO63 <= n < 2 * TWO63 then AsJson(python, PyInt(n)) == Success(Integer(n)) else AsJson(python, PyInt(n)).Failure?
  {
    AllConverted(python, items);
    assert AllAsJson(python, items).Success? ==>
      AsJson(python, PyList(items)) == Success(Array(AllAsJson(python, items).value));
  }

  ghost predicate Converted(python: Interpreter, items: seq<Py>, js: seq<Json>)
  {
    |js| == |items| && forall i :: 0 <= i < |items| ==> AsJson(python, items[i]) == Success(js[i])
  }

  lemma {:induction false} AllConverted(python: Interpreter, items: seq<Py>)
    ensures AllAsJson(python, items).Success? <==> forall i :: 0 <= i < |items| ==> AsJson(python, items[i]).Success?
    ensures AllAsJson(python, items).Success? ==> Converted(python, items, AllAsJson(python, items).value)
    decreases items
  {
    if items != [] {
      AllConverted(python, items[1..]);
      assert forall i :: 0 < i < |items| ==> items[i] == items[1..][i - 1];
      assert forall i :: 0 <= i < |items| - 1 ==> items[1..][i] == items[i + 1];
    }
  }

  method ToJson(python: Interpreter, p: Py) returns (r: Result<Json>)
    ensures r == AsJson(python, p)
    decreases p
  {
    match p {
      case PyNone => r := Success(Null);
      case PyBool(b) => r := Success(Bool(b));
      case PyInt(n) =>
        if -TWO63 <= n < TWO63 {
          r := Success(Integer(n));
        } else if 0 <= n < SIZE_MAX_PLUS_ONE {
          r := Success(Integer(n));
        } else {
          r := Failure;
        }
      case PyFloat(bits) => r := Success(Float(bits));
      case PyBytes(bytes) => r := Success(Text(python.encode(bytes)));
      case PyStr(s) => r := Success(Text(s));
      case PyTuple(items) => r := ItemsToJson(python, items);
      case PyList(items) => r := ItemsToJson(python, items);
      case PyDict(pairs) => r := PairsToJson(python, pairs);
      case PyOther => r := Failure;
    }
  }

  method ItemsToJson(python: Interpreter, items: seq<Py>) returns (r: Result<Json>)
    ensures r == match AllAsJson(python, items) case Success(js) => Success(Array(js)) case Failure => Failure
    decreases items
  {
    var out := [];
    assert items[0..] == items;
    PrefixedNone(AllAsJson(python, items));
    for i := 0 to |items|
      invariant AllAsJson(python, items) == Prefixed(out, AllAsJson(python, items[i..]))
    {
      assert items[i..][1..] == items[i + 1..];
      var value := ToJson(python, items[i]);
      if value.Failure? {
        return Failure;
      }
      PrefixedTwice(out, value.value, AllAsJson(python, items[i + 1..]));
      out := out + [value.value];
    }
    assert items[|items|..] == [];
    assert out + [] == out;
    r := Success(Array(out));
  }

  function Prefixed(out: seq<Json>, r: Result<seq<Json>>): Result<seq<Json>>
  {
    match r case Success(js) => Success(out + js) case Failure => Failure
  }

  lemma PrefixedNone(r: Result<seq<Json>>)
    ensures Prefixed([], r) == r
  {
    if r.Success? {
      assert [] + r.value == r.value;
    }
  }

  lemma PrefixedTwice(out: seq<Json>, j: Json, r: Result<seq<Json>>)
    ensures Prefixed(out, Prefixed([j], r)) == Prefixed(out + [j], r)
  {
    if r.Success? {
      assert out + ([j] + r.value) == (out + [j]) + r.value;
    }
  }

  method PairsToJson(python: Interpreter, pairs: seq<Pair>) returns (r: Result<Json>)
    ensures r == match Assigned(python, pairs, []) case Success(fs) => Success(Object(fs)) case Failure => Failure
    decreases pairs
  {
    var out := [];
    for i := 0 to |pairs|
      invariant Assigned(python, pairs, []) == Assigned(python, pairs[i..], out)
    {
      assert pairs[i..][1..] == pairs[i + 1..];
      var pair := pairs[i];
      assert pair.value < pair;
      var value := ToJson(python, pair.value);
      if value.Failure? {
        return Failure;
      }
      out := Insert(out, python.str(pair.key), value.value);
    }
    r := Success(Object(out));
  }

  // ---------------------------------------------------------------- there and back

  /** A JSON value comes back from Python with its integers read as signed, and is otherwise
      the same. */
  lemma {:induction false} ThereAndBack(python: Interpreter, j: Json)
    requires Proper(python) && Valid(j)
    ensures AsJson(python, AsPython(j)) == Success(Signed(j))
    decreases j
  {
    match j {
      case Array(items) => ItemsThereAndBack(python, items);
      case Object(fields) =>
        FieldsThereAndBack(python, fields, []);
        assert [] + SignedFields(fields) == SignedFields(fields);
      case _ =>
    }
  }

  lemma {:induction false} ItemsThereAndBack(python: Interpreter, items: seq<Json>)
    requires Proper(python) && forall i :: 0 <= i < |items| ==> Valid(items[i])
    ensures AllAsJson(python, AsItems(items)) == Success(SignedItems(items))
    decreases items
  {
    if items != [] {
      ThereAndBack(python, items[0]);
      ItemsThereAndBack(python, items[1..]);
      assert AsItems(items)[1..] == AsItems(items[1..]);
    }
  }

  ghost predicate Before(done: seq<Field>, fields: seq<Field>)
  {
    forall i, k :: 0 <= i < |done| && 0 <= k < |fields| ==> Less(done[i].key, fields[k].key)
  }

  lemma BeforeRest(done: seq<Field>, fields: seq<Field>, out: Field)
    requires Sorted(fields) && Before(done, fields) && fields != [] && out.key == fields[0].key
    ensures Sorted(fields[1..]) && Before(done + [out], fields[1..])
  {
    var rest, done' := fields[1..], done + [out];
    forall i, k | 0 <= i < |done'| && 0 <= k < |rest| ensures Less(done'[i].key, rest[k].key) {
      assert rest[k] == fields[k + 1];
    }
    assert forall i :: 0 <= i < |rest| ==> rest[i] == fields[i + 1];
  }

  lemma AssignFirst(python: Interpreter, fields: seq<Field>, done: seq<Field>)
    requires Proper(python) && fields != [] && Valid(fields[0].value) && Before(done, fields)
    requires AsJson(python, AsPython(fields[0].value)) == Success(Signed(fields[0].value))
    ensures Assigned(python, AsPairs(fields), done) ==
            Assigned(python, AsPairs(fields[1..]), done + [Field(fields[0].key, Signed(fields[0].value))])
  {
    InsertLast(done, fields[0].key, Signed(fields[0].value));
    assert AsPairs(fields)[1..] == AsPairs(fields[1..]);
  }

  lemma Regroup(done: seq<Field>, f: Field, rest: seq<Field>)
    ensures (done + [f]) + rest == done + ([f] + rest)
  {
  }

  lemma {:induction false} FieldsThereAndBack(python: Interpreter, fields: seq<Field>, done: seq<Field>)
    requires Proper(python) && Sorted(fields) && forall i :: 0 <= i < |fields| ==> Valid(fields[i].value)
    requires Before(done, fields)
    ensures Assigned(python, AsPairs(fields), done) == Success(done + SignedFields(fields))
    decreases fields
  {
    if fields == [] {
      assert done + [] == done;
    } else {
      var out := Field(fields[0].key, Signed(fields[0].value));
      ThereAndBack(python, fields[0].value);
      AssignFirst(python, fields, done);
      BeforeRest(done, fields, out);
      FieldsThereAndBack(python, fields[1..], done + [out]);
      Regroup(done, out, SignedFields(fields[1..]));
    }
  }

  /** The round trip is the identity exactly on the values whose integers fit in signed 64
      bits. */
  lemma ThereAndBackIffFits(python: Interpreter, j: Json)
    requires Proper(python) && Valid(j)
    ensures AsJson(python, AsPython(j)) == Success(j) <==> Fits(j)
  {
    ThereAndBack(python, j);
    SignedIffFits(j);
  }

  lemma LargeUnsignedIsNegative(python: Interpreter)
    ensures AsJson(python, AsPython(Integer(SIZE_MAX_PLUS_ONE - 1))) == Success(Integer(-1))
  {
  }

  // ---------------------------------------------------------------- what is accepted, and its normal form

  predicate Accepted(p: Py)
    decreases p
  {
    match p
    case PyInt(n) => -TWO63 <= n < SIZE_MAX_PLUS_ONE
    case PyTuple(items) => forall i :: 0 <= i < |items| ==> Accepted(items[i])
    case PyList(items) => forall i :: 0 <= i < |items| ==> Accepted(items[i])
    case PyDict(pairs) => forall i :: 0 <= i < |pairs| ==> assert pairs[i].value < pairs[i]; Accepted(pairs[i].value)
    case PyOther => false
    case _ => true
  }

  /** The conversion succeeds exactly on accepted values, and yields a value JSON can hold. */
  lemma {:induction false} AcceptedIffConverted(python: Interpreter, p: Py)
    ensures AsJson(python, p).Success? <==> Accepted(p)
    ensures Accepted(p) ==> Valid(AsJson(python, p).value)
    decreases p
  {
    match p {
      case PyTuple(items) => AllAcceptedIffConverted(python, items);
      case PyList(items) => AllAcceptedIffConverted(python, items);
      case PyDict(pairs) => AssignedIffAccepted(python, pairs, []);
      case _ =>
    }
  }

  lemma {:induction false} AllAcceptedIffConverted(python: Interpreter, items: seq<Py>)
    ensures AllAsJson(python, items).Success? <==> forall i :: 0 <= i < |items| ==> Accepted(items[i])
    ensures AllAsJson(python, items).Success? ==> Valid(Array(AllAsJson(python, items).value))
    decreases items
  {
    if items != [] {
      AcceptedIffConverted(python, items[0]);
      AllAcceptedIffConverted(python, items[1..]);
      assert forall i :: 0 < i < |items| ==> items[i] == items[1..][i - 1];
    }
  }

  lemma InsertKeepsValid(fields: seq<Field>, key: string, value: Json)
    requires Valid(Object(fields)) && Valid(value)
    ensures Valid(Object(Insert(fields, key, value)))
  {
    InsertMeans(fields, key, value);
    var out := Insert(fields, key, value);
    forall i | 0 <= i < |out| ensures Valid(out[i].value) {
      assert out[i] in out;
    }
  }

  lemma {:induction false} AssignedIffAccepted(python: Interpreter, pairs: seq<Pair>, fields: seq<Field>)
    requires Valid(Object(fields))
    ensures Assigned(python, pairs, fields).Success? <==> forall i :: 0 <= i < |pairs| ==> Accepted(pairs[i].value)
    ensures Assigned(python, pairs, fields).Success? ==> Valid(Object(Assigned(python, pairs, fields).value))
    decreases pairs
  {
    if pairs != [] {
      var pair, rest := pairs[0], pairs[1..];
      assert pair.value < pair;
      AcceptedIffConverted(python, pair.value);
      assert forall i :: 0 < i < |pairs| ==> pairs[i] == rest[i - 1];
      if Accepted(pair.value) {
        var j := AsJson(python, pair.value).value;
        InsertKeepsValid(fields, python.str(pair.key), j);
        AssignedIffAccepted(python, rest, Insert(fields, python.str(pair.key), j));
      }
    }
  }

  /** The last pair whose key prints as `key`. */
  ghost predicate LastWith(python: Interpreter, pairs: seq<Pair>, key: string, i: nat)
  {
    && i < |pairs| && python.str(pairs[i].key) == key
    && forall k :: i < k < |pairs| ==> python.str(pairs[k].key) != key
  }

  ghost predicate AssignedLast(python: Interpreter, pairs: seq<Pair>, f: Field, i: nat)
  {
    LastWith(python, pairs, f.key, i) && AsJson(python, pairs[i].value) == Success(f.value)
  }

  ghost predicate NeverAssigned(python: Interpreter, pairs: seq<Pair>, key: string)
  {
    forall i :: 0 <= i < |pairs| ==> python.str(pairs[i].key) != key
  }

  lemma LastWithCons(python: Interpreter, pairs: seq<Pair>, f: Field)
    requires pairs != []
    ensures NeverAssigned(python, pairs, f.key) <==>
            python.str(pairs[0].key) != f.key && NeverAssigned(python, pairs[1..], f.key)
    ensures (exists i: nat :: AssignedLast(python, pairs, f, i)) <==>
            || (exists i: nat :: AssignedLast(python, pairs[1..], f, i))
            || (&& python.str(pairs[0].key) == f.key && NeverAssigned(python, pairs[1..], f.key)
                && AsJson(python, pairs[0].value) == Success(f.value))
  {
    var rest := pairs[1..];
    assert forall i :: 0 < i < |pairs| ==> pairs[i] == rest[i - 1];
    if i: nat :| AssignedLast(python, pairs, f, i) {
      if i > 0 {
        assert AssignedLast(python, rest, f, i - 1);
      }
    }
    if i: nat :| AssignedLast(python, rest, f, i) {
      assert AssignedLast(python, pairs, f, i + 1);
    }
    if python.str(pairs[0].key) == f.key && NeverAssigned(python, rest, f.key)
       && AsJson(python, pairs[0].value) == Success(f.value) {
      assert AssignedLast(python, pairs, f, 0);
    }
  }

  /** The fields of a converted dictionary: one for each printed key, with the value that was
      assigned last. */
  lemma {:induction false} LastAssignmentStays(python: Interpreter, pairs: seq<Pair>, fields: seq<Field>, f: Field)
    requires Sorted(fields) && Assigned(python, pairs, fields).Success?
    ensures f in Assigned(python, pairs, fields).value <==>
            (exists i: nat :: AssignedLast(python, pairs, f, i))
            || (f in fields && NeverAssigned(python, pairs, f.key))
    decreases pairs
  {
    if pairs != [] {
      var pair, rest := pairs[0], pairs[1..];
      var key, j := python.str(pair.key), AsJson(python, pair.value).value;
      InsertMeans(fields, key, j);
      LastAssignmentStays(python, rest, Insert(fields, key, j), f);
      LastWithCons(python, pairs, f);
    }
  }

  /** Reading as signed changes nothing the second time. */
  lemma {:induction false} SignedIsRead(j: Json)
    requires Valid(j)
    ensures AsPython(Signed(j)) == AsPython(j)
    decreases j
  {
    match j {
      case Array(items) => SignedItemsAreRead(items);
      case Object(fields) => SignedFieldsAreRead(fields);
      case _ =>
    }
  }

  lemma {:induction false} SignedItemsAreRead(items: seq<Json>)
    requires forall i :: 0 <= i < |items| ==> Valid(items[i])
    ensures AsItems(SignedItems(items)) == AsItems(items)
    decreases items
  {
    if items != [] {
      SignedIsRead(items[0]);
      SignedItemsAreRead(items[1..]);
      assert SignedItems(items)[1..] == SignedItems(items[1..]);
    }
  }

  lemma {:induction false} SignedFieldsAreRead(fields: seq<Field>)
    requires forall i :: 0 <= i < |fields| ==> Valid(fields[i].value)
    ensures AsPairs(SignedFields(fields)) == AsPairs(fields)
    decreases fields
  {
    if fields != [] {
      SignedIsRead(fields[0].value);
      SignedFieldsAreRead(fields[1..]);
      assert SignedFields(fields)[1..] == SignedFields(fields[1..]);
    }
  }

  /** Converting an accepted value to JSON and back is a normalisation: it is accepted again,
      and a second time changes nothing. Its JSON is that of the original exactly when the
      integers fit in signed 64 bits. */
  lemma NormalFormIsStable(python: Interpreter, p: Py)
    requires Proper(python) && Accepted(p)
    ensures AsJson(python, p).Success?
    ensures var n := AsPython(AsJson(python, p).value);
            && Accepted(n) && AsJson(python, n).Success?
            && AsPython(AsJson(python, n).value) == n
            && (AsJson(python, n) == AsJson(python, p) <==> Fits(AsJson(python, p).value))
  {
    AcceptedIffConverted(python, p);
    var j := AsJson(python, p).value;
    ThereAndBack(python, j);
    SignedIsRead(j);
    SignedIffFits(j);
    AcceptedIffConverted(python, AsPython(j));
  }

  // ---------------------------------------------------------------- normal forms

  /** Values that JSON holds as they are: no tuples, no bytes, signed integers, and
      dictionaries with strings as keys, in order. */
  predicate Normal(p: Py)
    decreases p
  {
    match p
    case PyInt(n) => -TWO63 <= n < TWO63
    case PyList(items) => forall i :: 0 <= i < |items| ==> Normal(items[i])
    case PyDict(pairs) =>
      && KeysInOrder(pairs)
      && forall i :: 0 <= i < |pairs| ==> assert pairs[i].value < pairs[i]; Normal(pairs[i].value)
    case PyBytes(_) => false
    case PyTuple(_) => false
    case PyOther => false
    case _ => true
  }

  predicate KeysInOrder(pairs: seq<Pair>)
  {
    && (forall i :: 0 <= i < |pairs| ==> pairs[i].key.PyStr?)
    && (forall i, j :: 0 <= i < j < |pairs| ==> Less(pairs[i].key.s, pairs[j].key.s))
  }

  lemma {:induction false} PythonIsNormal(j: Json)
    requires Valid(j)
    ensures Normal(AsPython(j))
    decreases j
  {
    match j {
      case Array(items) => ItemsAreNormal(items);
      case Object(fields) => PairsAreNormal(fields);
      case _ =>
    }
  }

  lemma {:induction false} ItemsAreNormal(items: seq<Json>)
    requires forall i :: 0 <= i < |items| ==> Valid(items[i])
    ensures forall i :: 0 <= i < |AsItems(items)| ==> Normal(AsItems(items)[i])
    decreases items
  {
    if items != [] {
      PythonIsNormal(items[0]);
      ItemsAreNormal(items[1..]);
    }
  }

  lemma {:induction false} PairsAreNormal(fields: seq<Field>)
    requires Sorted(fields) && forall i :: 0 <= i < |fields| ==> Valid(fields[i].value)
    ensures |AsPairs(fields)| == |fields| && KeysInOrder(AsPairs(fields))
    ensures forall i :: 0 <= i < |fields| ==>
              AsPairs(fields)[i].key == PyStr(fields[i].key) && Normal(AsPairs(fields)[i].value)
    decreases fields
  {
    if fields != [] {
      var rest := fields[1..];
      PythonIsNormal(fields[0].value);
      assert forall i :: 0 <= i < |rest| ==> rest[i] == fields[i + 1];
      PairsAreNormal(rest);
      var pairs := AsPairs(fields);
      forall i | 0 <= i < |fields| ensures pairs[i].key == PyStr(fields[i].key) && Normal(pairs[i].value) {
        assert i > 0 ==> pairs[i] == AsPairs(rest)[i - 1];
      }
    }
  }

  lemma {:induction false} NormalIsKept(python: Interpreter, p: Py)
    requires Proper(python) && Normal(p)
    ensures AsJson(python, p).Success? && AsPython(AsJson(python, p).value) == p
    decreases p
  {
    match p {
      case PyList(items) => NormalItemsAreKept(python, items);
      case PyDict(pairs) =>
        var fields := NormalPairsAreKept(python, pairs, []);
        assert [] + fields == fields;
      case _ =>
    }
  }

  lemma {:induction false} NormalItemsAreKept(python: Interpreter, items: seq<Py>)
    requires Proper(python) && forall i :: 0 <= i < |items| ==> Normal(items[i])
    ensures AllAsJson(python, items).Success? && AsItems(AllAsJson(python, items).value) == items
    decreases items
  {
    if items != [] {
      NormalIsKept(python, items[0]);
      NormalItemsAreKept(python, items[1..]);
      var js := AllAsJson(python, items).value;
      assert js[1..] == AllAsJson(python, items[1..]).value;
    }
  }

  lemma {:induction false} NormalPairsAreKept(python: Interpreter, pairs: seq<Pair>, done: seq<Field>)
    returns (fields: seq<Field>)
    requires Proper(python) && KeysInOrder(pairs) && forall i :: 0 <= i < |pairs| ==> Normal(pairs[i].value)
    requires forall i, k :: 0 <= i < |done| && 0 <= k < |pairs| ==> Less(done[i].key, pairs[k].key.s)
    ensures Assigned(python, pairs, done) == Success(done + fields) && AsPairs(fields) == pairs
    decreases pairs
  {
    if pairs == [] {
      fields := [];
      assert done + [] == done;
    } else {
      var pair, rest := pairs[0], pairs[1..];
      assert pair.value < pair;
      NormalIsKept(python, pair.value);
      var first := Field(pair.key.s, AsJson(python, pair.value).value);
      assert python.str(pair.key) == first.key by {
        assert pair.key == PyStr(first.key);
      }
      InsertLast(done, first.key, first.value);
      DoneBeforeRest(pairs, done, first);
      var others := NormalPairsAreKept(python, rest, done + [first]);
      fields := [first] + others;
      Regroup(done, first, others);
      assert fields[1..] == others && pairs == [pair] + rest;
    }
  }

  lemma DoneBeforeRest(pairs: seq<Pair>, done: seq<Field>, first: Field)
    requires pairs != [] && KeysInOrder(pairs) && first.key == pairs[0].key.s
    requires forall i, k :: 0 <= i < |done| && 0 <= k < |pairs| ==> Less(done[i].key, pairs[k].key.s)
    ensures var rest, done' := pairs[1..], done + [first];
            && KeysInOrder(rest) && (forall i :: 0 <= i < |rest| ==> rest[i] == pairs[i + 1])
            && forall i, k :: 0 <= i < |done'| && 0 <= k < |rest| ==> Less(done'[i].key, rest[k].key.s)
  {
    var rest, done' := pairs[1..], done + [first];
    forall i, k | 0 <= i < |done'| && 0 <= k < |rest| ensures Less(done'[i].key, rest[k].key.s) {
      assert rest[k] == pairs[k + 1];
    }
  }

  /** Going to JSON and back leaves exactly the normal forms as they are. */
  lemma UnchangedIffNormal(python: Interpreter, p: Py)
    requires Proper(python) && Accepted(p)
    ensures AsJson(python, p).Success?
    ensures AsPython(AsJson(python, p).value) == p <==> Normal(p)
  {
    AcceptedIffConverted(python, p);
    PythonIsNormal(AsJson(python, p).value);
    if Normal(p) {
      NormalIsKept(python, p);
    }
  }
}
